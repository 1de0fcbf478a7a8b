/** The one Redis keyspace shared by the denylist, the API keys and the rate counters. */
module Keyspace {
  import opened Prelude
  import opened Decimal
  import opened Encoding
  import opened Redis
  import Tokens
  import ApiKeys
  import ApiKeyHistory
  import RateLimiter
  import FixedWindow
  import RateWitnesses

  datatype Settings = Settings(tokens: Tokens.Config, keys: ApiKeys.Codec, rate: RateLimiter.Config)

  /** The operations that write to Redis. */
  datatype Command =
    | Logout(token: string, at: int)
    | Configure(key: string, at: int)
    | Hit(ip: string, at: int)

  datatype Owner = Denylist | KeyRing | Counters

  function OwnerOf(c: Command): Owner {
    match c
    case Logout(_, _) => Denylist
    case Configure(_, _) => KeyRing
    case Hit(_, _) => Counters
  }

  /** Which of the three components a Redis key is for. */
  predicate Owns(o: Owner, key: string) {
    match o
    case Denylist => ':' !in key
    case KeyRing => key == ApiKeys.CURRENT_KEY || key == ApiKeys.OLD_KEY || key == ApiKeys.ROTATION_KEY
    case Counters => RateLimiter.KEY_PREFIX <= key
  }

  /** Logging out denies the token only when it still authenticates. */
  function Apply(g: Settings, s: Store, c: Command): Store {
    match c
    case Logout(token, at) =>
      if Tokens.Authenticate(g.tokens, s, token, at).Err? then s
      else (match Tokens.Invalidate(g.tokens, s, token, at) case Ok(after) => after case Err(_) => s)
    case Configure(key, at) =>
      (match ApiKeys.Sync(g.keys, s, key, at) case Ok(after) => after case Err(_) => s)
    case Hit(ip, at) => RateLimiter.Handle(g.rate, s, ip, at).0
  }

  function Run(g: Settings, s: Store, commands: seq<Command>): Store {
    if |commands| == 0 then s
    else Apply(g, Run(g, s, commands[..|commands| - 1]), commands[|commands| - 1])
  }

  function Only(o: Owner, commands: seq<Command>): seq<Command> {
    if |commands| == 0 then []
    else Only(o, commands[..|commands| - 1]) +
         if OwnerOf(commands[|commands| - 1]) == o then [commands[|commands| - 1]] else []
  }

  /** The two stores agree on every key of one component. */
  ghost predicate Agree(o: Owner, a: Store, b: Store) {
    forall key :: Owns(o, key) ==> (key in a <==> key in b) && (key in a ==> a[key] == b[key])
  }

  lemma OwnersAreDisjoint(o: Owner, p: Owner, key: string)
    requires Owns(o, key) && Owns(p, key)
    ensures o == p
  {
    assert ApiKeys.CURRENT_KEY[6] == ':' && ApiKeys.OLD_KEY[6] == ':' && ApiKeys.ROTATION_KEY[6] == ':';
    assert RateLimiter.KEY_PREFIX[0] == 'r' && RateLimiter.KEY_PREFIX[10] == ':';
    if RateLimiter.KEY_PREFIX <= key {
      assert key[0] == 'r' && key[10] == ':';
    }
  }

  lemma CounterKeysAreOwned(ip: string)
    ensures Owns(Counters, RateLimiter.CountKey(ip))
    ensures Owns(Counters, RateLimiter.BlockKey(RateLimiter.CountKey(ip)))
  {
  }

  /** A command writes only keys of its own component. */
  lemma WritesOwnKeys(g: Settings, s: Store, c: Command, key: string)
    requires Tokens.Sound(g.tokens) && !Owns(OwnerOf(c), key)
    ensures key in Apply(g, s, c) <==> key in s
    ensures key in s ==> Apply(g, s, c)[key] == s[key]
  {
    if c.Hit? {
      CounterKeysAreOwned(c.ip);
      RateLimiter.HandleFrame(g.rate, s, c.ip, c.at, key);
    }
  }

  lemma HitReadsCounters(g: Settings, a: Store, b: Store, ip: string, now: int)
    requires Agree(Counters, a, b)
    ensures var (after, admitted) := RateLimiter.Handle(g.rate, a, ip, now);
            var (after', admitted') := RateLimiter.Handle(g.rate, b, ip, now);
            Agree(Counters, after, after') && admitted == admitted'
  {
    var key := RateLimiter.CountKey(ip);
    var block := RateLimiter.BlockKey(key);
    CounterKeysAreOwned(ip);
    assert Live(a, key, now) == Live(b, key, now) && Live(a, block, now) == Live(b, block, now);
    assert RateLimiter.Count(a, key, now) == RateLimiter.Count(b, key, now);
    SameIncrement(a, b, key, now);
  }

  lemma SameIncrement(a: Store, b: Store, key: string, now: int)
    requires Agree(Counters, a, b) && Owns(Counters, key)
    ensures Incr(a, key, now).Some? <==> Incr(b, key, now).Some?
    ensures Incr(a, key, now).Some? ==> Agree(Counters, Incr(a, key, now).value, Incr(b, key, now).value)
  {
  }

  lemma ConfigureReadsKeyRing(g: Settings, a: Store, b: Store, c: Command)
    requires c.Configure? && Agree(KeyRing, a, b)
    ensures Agree(KeyRing, Apply(g, a, c), Apply(g, b, c))
  {
    assert Owns(KeyRing, ApiKeys.CURRENT_KEY);
  }

  lemma LogoutReadsDenylist(g: Settings, a: Store, b: Store, c: Command)
    requires c.Logout? && Agree(Denylist, a, b) && Tokens.Sound(g.tokens)
    ensures Agree(Denylist, Apply(g, a, c), Apply(g, b, c))
  {
    if ':' !in c.token {
      assert Owns(Denylist, c.token);
    } else {
      assert !g.tokens.verified(c.token);
    }
  }

  /** What a command does to its own component depends on nothing else in the store. */
  lemma ReadsOwnKeys(g: Settings, a: Store, b: Store, c: Command)
    requires Tokens.Sound(g.tokens) && Agree(OwnerOf(c), a, b)
    ensures Agree(OwnerOf(c), Apply(g, a, c), Apply(g, b, c))
  {
    match c
    case Logout(_, _) => LogoutReadsDenylist(g, a, b, c);
    case Configure(_, _) => ConfigureReadsKeyRing(g, a, b, c);
    case Hit(ip, at) => HitReadsCounters(g, a, b, ip, at);
  }

  lemma OthersLeaveAlone(g: Settings, o: Owner, s: Store, t: Store, c: Command)
    requires Tokens.Sound(g.tokens) && OwnerOf(c) != o && Agree(o, s, t)
    ensures Agree(o, Apply(g, s, c), t)
  {
    forall key | Owns(o, key)
      ensures (key in Apply(g, s, c) <==> key in t) && (key in t ==> key in Apply(g, s, c) && Apply(g, s, c)[key] == t[key])
    {
      if Owns(OwnerOf(c), key) {
        OwnersAreDisjoint(o, OwnerOf(c), key);
      }
      WritesOwnKeys(g, s, c, key);
    }
  }

  /** In any mixed run each component's keys end up as if only its own commands had run. */
  lemma {:induction false} Separation(g: Settings, s: Store, commands: seq<Command>, o: Owner)
    requires Tokens.Sound(g.tokens)
    ensures Agree(o, Run(g, s, commands), Run(g, s, Only(o, commands)))
  {
    if |commands| > 0 {
      var front, last := commands[..|commands| - 1], commands[|commands| - 1];
      Separation(g, s, front, o);
      if OwnerOf(last) == o {
        ReadsOwnKeys(g, Run(g, s, front), Run(g, s, Only(o, front)), last);
        assert Only(o, commands)[..|Only(o, commands)| - 1] == Only(o, front);
      } else {
        OthersLeaveAlone(g, o, Run(g, s, front), Run(g, s, Only(o, front)), last);
        assert Only(o, commands) == Only(o, front);
      }
    }
  }

  // ---------- each component's results, beside the others ----------

  function Syncs(commands: seq<Command>): seq<ApiKeyHistory.Synced> {
    if |commands| == 0 then []
    else
      var last := commands[|commands| - 1];
      Syncs(commands[..|commands| - 1]) +
      if last.Configure? then [ApiKeyHistory.Synced(last.key, last.at)] else []
  }

  lemma {:induction false} OnlySyncs(g: Settings, s: Store, commands: seq<Command>)
    ensures Run(g, s, Only(KeyRing, commands)) == ApiKeyHistory.AfterSyncs(g.keys, s, Syncs(commands))
  {
    if |commands| > 0 {
      var front, last := commands[..|commands| - 1], commands[|commands| - 1];
      OnlySyncs(g, s, front);
      if last.Configure? {
        assert Only(KeyRing, commands)[..|Only(KeyRing, commands)| - 1] == Only(KeyRing, front);
        assert Syncs(commands)[..|Syncs(commands)| - 1] == Syncs(front);
      } else {
        assert Only(KeyRing, commands) == Only(KeyRing, front);
        assert Syncs(commands) == Syncs(front);
      }
    }
  }

  /** Beside any logouts and counted requests, the accepted API keys are still exactly the ring's. */
  lemma KeyRingInSharedStore(g: Settings, s: Store, commands: seq<Command>, key: string, now: int)
    requires Tokens.Sound(g.tokens) && ApiKeys.Sound(g.keys) && ApiKeyHistory.Unkeyed(s)
    requires CollisionFree(g.keys.sha256, ApiKeyHistory.KeysOf(Syncs(commands)) + {key})
    ensures ApiKeys.IsValid(g.keys, Run(g, s, commands), key, now)
            == Ok(ApiKeyHistory.Accepts(ApiKeyHistory.Remember(Syncs(commands)), key, now))
  {
    Separation(g, s, commands, KeyRing);
    OnlySyncs(g, s, commands);
    ApiKeyHistory.AcceptedKeysAreTheRing(g.keys, s, Syncs(commands), key, now);
    assert Owns(KeyRing, ApiKeys.CURRENT_KEY) && Owns(KeyRing, ApiKeys.OLD_KEY) && Owns(KeyRing, ApiKeys.ROTATION_KEY);
  }

  function Hits(commands: seq<Command>): seq<FixedWindow.Hit> {
    if |commands| == 0 then []
    else
      var last := commands[|commands| - 1];
      Hits(commands[..|commands| - 1]) + if last.Hit? then [FixedWindow.Hit(last.at, last.ip)] else []
  }

  lemma {:induction false} OnlyHits(g: Settings, s: Store, commands: seq<Command>)
    ensures Run(g, s, Only(Counters, commands)) == FixedWindow.After(g.rate, s, Hits(commands))
  {
    if |commands| > 0 {
      var front, last := commands[..|commands| - 1], commands[|commands| - 1];
      OnlyHits(g, s, front);
      if last.Hit? {
        assert Only(Counters, commands)[..|Only(Counters, commands)| - 1] == Only(Counters, front);
        assert Hits(commands)[..|Hits(commands)| - 1] == Hits(front);
      } else {
        assert Only(Counters, commands) == Only(Counters, front);
        assert Hits(commands) == Hits(front);
      }
    }
  }

  /** Beside any logouts and key changes, the next request's decision is the one the counted
      requests alone would give. */
  lemma CountersInSharedStore(g: Settings, s: Store, commands: seq<Command>, ip: string, now: int)
    requires Tokens.Sound(g.tokens)
    ensures RateLimiter.Handle(g.rate, Run(g, s, commands), ip, now).1
            == RateLimiter.Handle(g.rate, FixedWindow.After(g.rate, s, Hits(commands)), ip, now).1
  {
    Separation(g, s, commands, Counters);
    OnlyHits(g, s, commands);
    CounterKeysAreOwned(ip);
  }

  /** So in a mixed run each request is still admitted exactly when fewer than `limit` arrivals
      from its address came before it in its window. */
  lemma AdmissionInSharedStore(g: Settings, s: Store, commands: seq<Command>, ip: string, now: int)
    requires Tokens.Sound(g.tokens) && RateLimiter.Usable(g.rate)
    requires RateLimiter.CountKey(ip) !in s && FixedWindow.NoClash(Hits(commands), ip)
    ensures var times := FixedWindow.Times(Hits(commands), ip);
            RateLimiter.Handle(g.rate, Run(g, s, commands), ip, now).1
            == FixedWindow.Passes(times + [now], RateLimiter.Window(g.rate), g.rate.limit, |times|)
  {
    var hits := Hits(commands);
    CountersInSharedStore(g, s, commands, ip, now);
    FixedWindow.DecisionAfterRun(g.rate, s, hits, ip, FixedWindow.Times(hits, ip), now);
  }

  /** After this mixed run the next request of this address is decided by its arrivals alone. */
  ghost predicate DecidedAfter(g: Settings, commands: seq<Command>, ip: string, now: int) {
    var times := FixedWindow.Times(Hits(commands), ip);
    RateLimiter.Handle(g.rate, Run(g, map[], commands), ip, now).1
    == FixedWindow.Passes(times + [now], RateLimiter.Window(g.rate), g.rate.limit, |times|)
  }

  ghost predicate DecidedByArrivals(g: Settings, ip: string) {
    forall commands: seq<Command>, now: int :: DecidedAfter(g, commands, ip, now)
  }

  function Commands(hits: seq<FixedWindow.Hit>): seq<Command> {
    if |hits| == 0 then []
    else Commands(hits[..|hits| - 1]) + [Hit(hits[|hits| - 1].ip, hits[|hits| - 1].at)]
  }

  lemma {:induction false} HitsOfCommands(hits: seq<FixedWindow.Hit>)
    ensures Hits(Commands(hits)) == hits
  {
    if |hits| > 0 {
      var n := |hits| - 1;
      HitsOfCommands(hits[..n]);
      assert Commands(hits)[..|Commands(hits)| - 1] == Commands(hits[..n]);
      assert hits == hits[..n] + [hits[n]];
    }
  }

  lemma ClashDecides(g: Settings, ip: string, other: string)
    requires Tokens.Sound(g.tokens) && RateLimiter.Usable(g.rate)
    requires ip == other + RateLimiter.BLOCK_SUFFIX && RateLimiter.CountKey(other) != RateLimiter.CountKey(ip)
    ensures !DecidedByArrivals(g, ip)
  {
    var hits := RateWitnesses.FullHits(g.rate.limit, ip, other);
    var s := FixedWindow.After(g.rate, map[], hits);
    RateWitnesses.FullAtStart(g.rate, ip, other, hits);
    RateWitnesses.FullCounterRefuses(g.rate, s, ip, 0, RateLimiter.BlockSpan(g.rate));
    RateWitnesses.FullTimes(g.rate.limit, ip, other);
    HitsOfCommands(hits);
    RefusedEarly(g, ip, hits, Commands(hits));
  }

  lemma RefusedEarly(g: Settings, ip: string, hits: seq<FixedWindow.Hit>, commands: seq<Command>)
    requires Tokens.Sound(g.tokens) && |FixedWindow.Times(hits, ip)| < g.rate.limit && Hits(commands) == hits
    requires !RateLimiter.Handle(g.rate, FixedWindow.After(g.rate, map[], hits), ip, 0).1
    ensures !DecidedByArrivals(g, ip)
  {
    CountersInSharedStore(g, map[], commands, ip, 0);
    assert !DecidedAfter(g, commands, ip, 0);
  }

  /** And that is so exactly when the address does not end in ":block". */
  lemma AdmissionExactly(g: Settings, ip: string)
    requires Tokens.Sound(g.tokens) && RateLimiter.Usable(g.rate)
    ensures DecidedByArrivals(g, ip) <==> !RateWitnesses.IsBlockName(ip)
  {
    if RateWitnesses.IsBlockName(ip) {
      var other := ip[..|ip| - |RateLimiter.BLOCK_SUFFIX|];
      assert other + RateLimiter.BLOCK_SUFFIX == ip;
      FixedWindow.KeysApart(other, ip);
      ClashDecides(g, ip, other);
    } else {
      forall commands: seq<Command>, now: int
        ensures DecidedAfter(g, commands, ip, now)
      {
        assert forall x: string :: x + RateLimiter.BLOCK_SUFFIX == ip ==> RateWitnesses.IsBlockName(ip);
        AdmissionInSharedStore(g, map[], commands, ip, now);
      }
    }
  }

  /** A token with a good signature reads as revoked only because of logouts. */
  lemma DenylistInSharedStore(g: Settings, s: Store, commands: seq<Command>, token: string, now: int)
    requires Tokens.Sound(g.tokens) && g.tokens.verified(token)
    ensures Tokens.Authenticate(g.tokens, Run(g, s, commands), token, now)
            == Tokens.Authenticate(g.tokens, Run(g, s, Only(Denylist, commands)), token, now)
  {
    Separation(g, s, commands, Denylist);
    assert Owns(Denylist, token);
  }

  // ---------- the life of one access token ----------

  ghost predicate InOrder(commands: seq<Command>) {
    forall i, j :: 0 <= i <= j < |commands| ==> commands[i].at <= commands[j].at
  }

  function LogoutTimes(commands: seq<Command>, token: string): seq<int> {
    if |commands| == 0 then []
    else
      var last := commands[|commands| - 1];
      LogoutTimes(commands[..|commands| - 1], token) +
      if last.Logout? && last.token == token then [last.at] else []
  }

  /** A logout at or after the expiry second leaves a time to live of zero or less, which Redis
      stores without a deadline. Before it, the entry ends with the expiry itself. */
  predicate DeniedForGood(times: seq<int>, expiry: int) {
    |times| > 0 && (times[0] == expiry || exists k :: 0 <= k < |times| && expiry < times[k] < expiry + 5_000)
  }

  /** What the denylist holds for a token with this expiry after logouts at these times. */
  ghost predicate EntryReflects(s: Store, token: string, expiry: int, times: seq<int>) {
    if |times| == 0 || times[0] >= expiry + 5_000 then token !in s
    else
      && token in s
      && s[token] == Entry(Tokens.INVALIDATED, if DeniedForGood(times, expiry) then None else Some(expiry))
  }

  lemma {:induction false} LogoutTimesFacts(commands: seq<Command>, token: string)
    requires InOrder(commands)
    ensures FixedWindow.Ascending(LogoutTimes(commands, token))
    ensures forall k :: 0 <= k < |LogoutTimes(commands, token)| ==>
              LogoutTimes(commands, token)[k] <= commands[|commands| - 1].at
  {
    if |commands| > 0 {
      LogoutTimesFacts(commands[..|commands| - 1], token);
    }
  }

  lemma LogoutOnce(g: Settings, s: Store, userId: int, jti: string, minted: int, times: seq<int>, at: int)
    requires Tokens.Sound(g.tokens) && MIN_INT64 <= userId <= MAX_INT64
    requires FixedWindow.Ascending(times + [at])
    requires EntryReflects(s, Tokens.MintAccess(g.tokens, userId, minted, jti),
                           (minted + g.tokens.accessTtl) / 1000 * 1000, times)
    ensures var token := Tokens.MintAccess(g.tokens, userId, minted, jti);
            EntryReflects(Apply(g, s, Logout(token, at)), token,
                          (minted + g.tokens.accessTtl) / 1000 * 1000, times + [at])
  {
    var token := Tokens.MintAccess(g.tokens, userId, minted, jti);
    var expiry := (minted + g.tokens.accessTtl) / 1000 * 1000;
    var all := times + [at];
    Tokens.MintedTokenAccepted(g.tokens, s, userId, jti, minted, at);
    assert g.tokens.decode(token) == Some(Tokens.MintClaims(g.tokens, userId, minted, jti));
    assert all[0] == if |times| > 0 then times[0] else at;
    assert all[|times|] == at;
    if DeniedForGood(times, expiry) {
      assert forall k :: 0 <= k < |times| ==> all[k] == times[k];
      assert DeniedForGood(all, expiry);
    } else if DeniedForGood(all, expiry) && |times| > 0 {
      var k :| 0 <= k < |all| && expiry < all[k] < expiry + 5_000;
      assert k == |times|;
    }
  }

  lemma {:induction false} EntryAfterRun(g: Settings, s: Store, commands: seq<Command>, userId: int, jti: string, minted: int)
    requires Tokens.Sound(g.tokens) && MIN_INT64 <= userId <= MAX_INT64 && InOrder(commands)
    requires Tokens.MintAccess(g.tokens, userId, minted, jti) !in s
    ensures var token := Tokens.MintAccess(g.tokens, userId, minted, jti);
            EntryReflects(Run(g, s, commands), token, (minted + g.tokens.accessTtl) / 1000 * 1000,
                          LogoutTimes(commands, token))
  {
    var token := Tokens.MintAccess(g.tokens, userId, minted, jti);
    var expiry := (minted + g.tokens.accessTtl) / 1000 * 1000;
    if |commands| > 0 {
      var front, last := commands[..|commands| - 1], commands[|commands| - 1];
      EntryAfterRun(g, s, front, userId, jti, minted);
      LogoutTimesFacts(commands, token);
      if last.Logout? && last.token == token {
        LogoutOnce(g, Run(g, s, front), userId, jti, minted, LogoutTimes(front, token), last.at);
      } else {
        assert LogoutTimes(commands, token) == LogoutTimes(front, token);
        if !last.Logout? {
          assert g.tokens.verified(token);
          if Owns(OwnerOf(last), token) {
            OwnersAreDisjoint(OwnerOf(last), Denylist, token);
          }
          WritesOwnKeys(g, Run(g, s, front), last, token);
        }
      }
    }
  }

  /** The whole timeline. After any mixed run, a minted token is accepted exactly when it is
      less than five seconds past its expiry and no logout of it holds: any logout holds up to
      the expiry, and one made at or after the expiry, while still accepted, holds for ever. */
  lemma TokenTimeline(g: Settings, s: Store, commands: seq<Command>, userId: int, jti: string, minted: int, now: int)
    requires Tokens.Sound(g.tokens) && MIN_INT64 <= userId <= MAX_INT64 && InOrder(commands)
    requires Tokens.MintAccess(g.tokens, userId, minted, jti) !in s
    requires |commands| > 0 ==> commands[|commands| - 1].at <= now
    ensures var token := Tokens.MintAccess(g.tokens, userId, minted, jti);
            var expiry := (minted + g.tokens.accessTtl) / 1000 * 1000;
            var times := LogoutTimes(commands, token);
            var verdict := Tokens.Authenticate(g.tokens, Run(g, s, commands), token, now);
            && (verdict.Ok? <==> && now < expiry + 5_000
                                 && !(|times| > 0 && now <= expiry)
                                 && !DeniedForGood(times, expiry))
            && (verdict.Ok? ==> verdict.value == userId)
  {
    var token := Tokens.MintAccess(g.tokens, userId, minted, jti);
    EntryAfterRun(g, s, commands, userId, jti, minted);
    LogoutTimesFacts(commands, token);
    Tokens.MintedTokenAccepted(g.tokens, Run(g, s, commands), userId, jti, minted, now);
  }

  /** The documentation promises that a token logged out stays rejected. Every token logged out
      once, before its expiry, is accepted again in the five seconds after its expiry. */
  lemma AcceptedAgainAfterExpiry(g: Settings, userId: int, jti: string, minted: int, at: int, now: int)
    requires Tokens.Sound(g.tokens) && MIN_INT64 <= userId <= MAX_INT64
    requires var expiry := (minted + g.tokens.accessTtl) / 1000 * 1000;
             at < expiry < now < expiry + 5_000
    ensures var token := Tokens.MintAccess(g.tokens, userId, minted, jti);
            var after := Apply(g, map[], Logout(token, at));
            && Tokens.Authenticate(g.tokens, after, token, at) == Err(Tokens.TokenRevoked)
            && Tokens.Authenticate(g.tokens, after, token, now) == Ok(userId)
  {
    var token := Tokens.MintAccess(g.tokens, userId, minted, jti);
    assert g.tokens.decode(token) == Some(Tokens.MintClaims(g.tokens, userId, minted, jti));
    Tokens.MintedTokenAccepted(g.tokens, map[], userId, jti, minted, at);
    Tokens.MintedTokenAccepted(g.tokens, Apply(g, map[], Logout(token, at)), userId, jti, minted, at);
    Tokens.MintedTokenAccepted(g.tokens, Apply(g, map[], Logout(token, at)), userId, jti, minted, now);
  }
}
