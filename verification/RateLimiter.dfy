/** The per-address request counter (internal/api/middleware.go). */
module RateLimiter {
  import opened Prelude
  import opened Decimal
  import opened Redis

  const KEY_PREFIX: string := "rate_limit:"
  const BLOCK_SUFFIX: string := ":block"

  /** Interval and block time in milliseconds, as configured. */
  datatype Config = Config(limit: int, interval: int, blockTime: int)

  /** The configurations the rate claims are about: at least one request, a whole second or
      more for each duration, and a limit that fits the machine integer it is held in. */
  ghost predicate Usable(c: Config) {
    1 <= c.limit <= MAX_INT64 && c.interval >= 1000 && c.blockTime >= 1000
  }

  /** int(d.Seconds()): rounds toward zero. */
  function WholeSeconds(ms: int): int {
    if ms >= 0 then ms / 1000 else -((-ms) / 1000)
  }

  /** The configured durations in milliseconds, cut to whole seconds. */
  function Window(c: Config): int {
    c.interval - c.interval % 1000
  }

  function BlockSpan(c: Config): int {
    c.blockTime - c.blockTime % 1000
  }

  /** What is handed to the script is the duration in seconds, less than a second of it lost. */
  lemma WholeSecondsExactly(ms: int)
    ensures ms >= 0 ==> ms - 1000 < WholeSeconds(ms) * 1000 <= ms && WholeSeconds(ms) * 1000 == ms - ms % 1000
    ensures WholeSeconds(0 - ms) == 0 - WholeSeconds(ms)
  {
  }

  function CountKey(ip: string): string {
    KEY_PREFIX + ip
  }

  function BlockKey(key: string): string {
    key + BLOCK_SUFFIX
  }

  // ---------- specification of the script ----------

  /** The requests counted under a key at a moment: a missing or unreadable counter counts none. */
  function Count(s: Store, key: string, now: int): int {
    match Get(s, key, now)
    case None => 0
    case Some(v) => match ParseInt(v) case None => 0 case Some(n) => n
  }

  /** The script's reply, or None when one of its commands fails, and the entries it leaves behind. */
  function Script(s: Store, key: string, limit: int, interval: int, blockTime: int, now: int): (Store, Option<int>) {
    var current := Count(s, key, now);
    if current >= limit then
      if Live(s, BlockKey(key), now) then (s, Some(0))
      else match SetEx(s, BlockKey(key), "1", blockTime * 1000, now)
        case None => (s, None)
        case Some(blocked) => (blocked, Some(0))
    else match Incr(s, key, now)
      case None => (s, None)
      case Some(counted) =>
        (if current == 0 then Expire(counted, key, interval * 1000, now) else counted, Some(1))
  }

  /** The decision of the middleware: a failing script lets the request through. */
  function Handle(c: Config, s: Store, ip: string, now: int): (Store, bool) {
    var (after, reply) := Script(s, CountKey(ip), c.limit, WholeSeconds(c.interval), WholeSeconds(c.blockTime), now);
    (after, reply != Some(0))
  }

  /** A request writes its counter and its block key and nothing else. */
  lemma HandleFrame(c: Config, s: Store, ip: string, now: int, key: string)
    requires key != CountKey(ip) && key != BlockKey(CountKey(ip))
    ensures key in Handle(c, s, ip, now).0 <==> key in s
    ensures key in s ==> Handle(c, s, ip, now).0[key] == s[key]
  {
  }

  // ---------- the middleware ----------

  class Limiter {
    const redisClient: RedisClient
    const config: Config

    constructor (redisClient: RedisClient, config: Config)
      ensures this.redisClient == redisClient && this.config == config
    {
      this.redisClient := redisClient;
      this.config := config;
    }

    method RunScript(countKey: string, limit: int, interval: int, blockTime: int, now: int)
      returns (reply: Option<int>)
      modifies redisClient
      ensures (redisClient.entries, reply) ==
              Script(old(redisClient.entries), countKey, limit, interval, blockTime, now)
    {
      var value := redisClient.GetValue(countKey, now);
      var current := 0;
      if value.Some? {
        var n := ParseInt(value.value);
        if n.Some? {
          current := n.value;
        }
      }
      if current >= limit {
        var blockKey := countKey + BLOCK_SUFFIX;
        var blocked := redisClient.GetValue(blockKey, now);
        if blocked.None? {
          var ok := redisClient.SetWithExpiry(blockKey, "1", blockTime * 1000, now);
          if !ok {
            return None;
          }
        }
        return Some(0);
      }
      var ok := redisClient.Increment(countKey, now);
      if !ok {
        return None;
      }
      if current == 0 {
        redisClient.ExpireIn(countKey, interval * 1000, now);
      }
      return Some(1);
    }

    method Admit(ip: string, now: int) returns (admitted: bool)
      modifies redisClient
      ensures (redisClient.entries, admitted) == Handle(config, old(redisClient.entries), ip, now)
    {
      var key := KEY_PREFIX + ip;
      var reply := RunScript(key, config.limit, WholeSeconds(config.interval), WholeSeconds(config.blockTime), now);
      if reply.None? {
        return true;
      }
      return reply.value != 0;
    }
  }
}
