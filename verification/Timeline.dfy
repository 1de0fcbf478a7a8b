/** The Redis store that requests leave behind is that of their logouts as commands on the shared
    keyspace, so what is proved of mixed runs of commands holds of the requests. */
module Timeline {
  import opened Decimal
  import opened Redis
  import opened Tokens
  import opened Database
  import opened Auth
  import opened Requests
  import opened Lineage
  import Keyspace

  /** A logout writes what the command of the same token and time writes, on any tables, whether or
      not the deletion of the rows then succeeds. */
  lemma LogoutIsCommand(g: Keyspace.Settings, db: Db, store: Store, access: string, now: int, deleteFails: bool)
    ensures LogoutEffect(g.tokens, db, store, access, now, deleteFails).1
            == Keyspace.Apply(g, store, Keyspace.Logout(access, now))
  {
  }

  /** The logouts among the requests. */
  function Logouts(requests: seq<Request>): seq<Keyspace.Command> {
    if |requests| == 0 then []
    else
      var last := requests[|requests| - 1];
      Logouts(requests[..|requests| - 1]) + if last.LogoutRequest? then [Keyspace.Logout(last.access, last.now)] else []
  }

  lemma {:induction false} StoreIsOfLogouts(g: Keyspace.Settings, requests: seq<Request>)
    ensures Run(g.tokens, requests).store == Keyspace.Run(g, map[], Logouts(requests))
  {
    if |requests| > 0 {
      var front, last := requests[..|requests| - 1], requests[|requests| - 1];
      var w := Run(g.tokens, front);
      StoreIsOfLogouts(g, front);
      if last.LogoutRequest? {
        LogoutIsCommand(g, w.db, w.store, last.access, last.now, last.deleteFails);
        assert Logouts(requests)[..|Logouts(requests)| - 1] == Logouts(front);
      } else {
        assert Logouts(requests) == Logouts(front);
      }
    }
  }

  /** The times at which a run of requests logs out with this token. */
  function LogoutTimes(requests: seq<Request>, token: string): seq<int> {
    if |requests| == 0 then []
    else
      var last := requests[|requests| - 1];
      LogoutTimes(requests[..|requests| - 1], token) + if last.LogoutRequest? && last.access == token then [last.now] else []
  }

  lemma {:induction false} SameTimes(requests: seq<Request>, token: string)
    ensures Keyspace.LogoutTimes(Logouts(requests), token) == LogoutTimes(requests, token)
  {
    if |requests| > 0 {
      var front, last := requests[..|requests| - 1], requests[|requests| - 1];
      SameTimes(front, token);
      if last.LogoutRequest? {
        assert Logouts(requests)[..|Logouts(requests)| - 1] == Logouts(front);
      } else {
        assert Logouts(requests) == Logouts(front);
      }
    }
  }

  /** The clock of the logouts does not go back, and has not passed this moment. */
  ghost predicate LogoutsInOrder(requests: seq<Request>, now: int) {
    && Keyspace.InOrder(Logouts(requests))
    && (|Logouts(requests)| > 0 ==> Logouts(requests)[|Logouts(requests)| - 1].at <= now)
  }

  /** Whether an access token of this user and minting time authenticates, from the times of its logouts. */
  ghost predicate AcceptedByTimes(cfg: Config, store: Store, token: string, userId: int, minted: int, times: seq<int>, now: int) {
    var expiry := (minted + cfg.accessTtl) / 1000 * 1000;
    var verdict := Authenticate(cfg, store, token, now);
    && (verdict.Ok? <==> && now < expiry + 5_000
                         && !(|times| > 0 && now <= expiry)
                         && !Keyspace.DeniedForGood(times, expiry))
    && (verdict.Ok? ==> verdict.value == userId)
  }

  lemma MintedTimeline(g: Keyspace.Settings, requests: seq<Request>, token: string, userId: int, jti: string, minted: int, now: int)
    requires Sound(g.tokens) && LogoutsInOrder(requests, now) && MIN_INT64 <= userId <= MAX_INT64
    requires token == MintAccess(g.tokens, userId, minted, jti)
    ensures AcceptedByTimes(g.tokens, Run(g.tokens, requests).store, token, userId, minted, LogoutTimes(requests, token), now)
  {
    StoreIsOfLogouts(g, requests);
    SameTimes(requests, token);
    Keyspace.TokenTimeline(g, map[], Logouts(requests), userId, jti, minted, now);
  }

  /** In every run of requests an access token handed out authenticates, for its user, exactly when it
      is less than five seconds past its expiry and no logout with it holds: any logout holds up to
      the expiry, and one made at or after the expiry, while still accepted, holds for ever. */
  lemma RequestTimeline(g: Keyspace.Settings, requests: seq<Request>, i: nat, now: int)
    requires Sound(g.tokens) && AllFresh(g.tokens, requests) && i < |Run(g.tokens, requests).grants|
    requires LogoutsInOrder(requests, now)
    ensures var (w, granted) := (Run(g.tokens, requests), Run(g.tokens, requests).grants[i]);
            AcceptedByTimes(g.tokens, w.store, granted.pair.access, granted.session.userId, granted.session.createdAt,
                            LogoutTimes(requests, granted.pair.access), now)
  {
    RunKeepsGood(g.tokens, requests);
    var granted := Run(g.tokens, requests).grants[i];
    IdsFit(g.tokens, Run(g.tokens, requests), i);
    MintedTimeline(g, requests, granted.pair.access, granted.session.userId, granted.session.jti, granted.session.createdAt, now);
  }

  lemma IdsFit(cfg: Config, w: World, i: nat)
    requires Good(cfg, w) && i < |w.grants|
    ensures 1 <= w.grants[i].session.userId <= MAX_INT64
    ensures w.grants[i].pair.access == MintAccess(cfg, w.grants[i].session.userId, w.grants[i].session.createdAt, w.grants[i].session.jti)
  {
    assert PairMatches(cfg, w.grants[i]);
  }
}
