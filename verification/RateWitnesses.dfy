/** Runs that meet the rate bound or pass it, and exactly when the limiter keeps what is said of it. */
module RateWitnesses {
  import opened Prelude
  import opened Decimal
  import opened Redis
  import opened RateLimiter
  import opened FixedWindow
  import opened RateBounds

  // ---------- runs of one address ----------

  function HitsOf(times: seq<int>, ip: string): seq<Hit> {
    seq(|times|, i requires 0 <= i < |times| => Hit(times[i], ip))
  }

  lemma {:induction false} TimesOfHits(times: seq<int>, ip: string)
    ensures Times(HitsOf(times, ip), ip) == times
  {
    if |times| > 0 {
      var n := |times| - 1;
      TimesOfHits(times[..n], ip);
      assert HitsOf(times, ip)[..n] == HitsOf(times[..n], ip);
      assert times == times[..n] + [times[n]];
    }
  }

  /** How many of a run's requests from an address are admitted in a span. */
  function Total(c: Config, s: Store, hits: seq<Hit>, who: string, from: int, to: int): nat {
    AdmittedIn(c, s, hits, who, |hits|, from, to)
  }

  /** The same from an empty store, in a span of some length. */
  function InSpan(c: Config, hits: seq<Hit>, ip: string, from: int, length: nat): nat {
    Total(c, map[], hits, ip, from, from + length)
  }

  /** A run of one address is the reference on its times. */
  lemma OneAddress(c: Config, ip: string, times: seq<int>, from: int, length: nat)
    requires Usable(c)
    ensures Ascending(times) ==> InOrder(HitsOf(times, ip))
    ensures InSpan(c, HitsOf(times, ip), ip, from, length)
            == PassedIn(times, Window(c), c.limit, |times|, from, from + length)
  {
    var hits := HitsOf(times, ip);
    TimesOfHits(times, ip);
    assert |ip + BLOCK_SUFFIX| == |ip| + 6;
    RunMatchesReference(c, map[], hits, ip, from, from + length);
  }

  // ---------- the bound is met: this is not a sliding window ----------

  /** One early arrival, then limit - 1 at the deadline, then limit just after it. */
  function Burst(interval: int, limit: nat): seq<int> {
    seq(2 * limit, i => if i == 0 then 0 else if i < limit then interval else interval + 1)
  }

  lemma {:induction false} BurstOpeners(interval: int, limit: nat, i: nat)
    requires interval >= 1000 && 1 <= limit && i < 2 * limit
    ensures Opener(Burst(interval, limit), interval, i) == if i < limit then 0 else limit
  {
    if i > 0 {
      BurstOpeners(interval, limit, i - 1);
    }
  }

  lemma {:induction false} BurstPasses(interval: int, limit: nat, n: nat)
    requires interval >= 1000 && 1 <= limit && n <= 2 * limit
    ensures PassedIn(Burst(interval, limit), interval, limit, n, interval, interval + interval) == if n == 0 then 0 else n - 1
  {
    if n > 0 {
      BurstPasses(interval, limit, n - 1);
      BurstOpeners(interval, limit, n - 1);
      assert Passes(Burst(interval, limit), interval, limit, n - 1);
    }
  }

  lemma BurstAdmitted(c: Config, ip: string, interval: int)
    requires Usable(c) && interval == Window(c)
    ensures InOrder(HitsOf(Burst(interval, c.limit), ip))
    ensures InSpan(c, HitsOf(Burst(interval, c.limit), ip), ip, interval, interval) == 2 * c.limit - 1
  {
    BurstPasses(interval, c.limit, 2 * c.limit);
    OneAddress(c, ip, Burst(interval, c.limit), interval, interval);
  }

  lemma BoundOfOneInterval(c: Config)
    requires Usable(c)
    ensures Bound(c, Window(c)) == 2 * c.limit - 1
  {
    var interval := Window(c);
    QuotientIs(interval + interval - 1, interval, 1);
  }

  /** For every configuration and address there is a run in which one interval sees
      2 * limit - 1 admitted requests, which is the bound for that length. */
  lemma BoundIsReached(c: Config, ip: string)
    requires Usable(c)
    ensures var interval := Window(c);
            var hits := HitsOf(Burst(interval, c.limit), ip);
            && InOrder(hits)
            && InSpan(c, hits, ip, interval, interval) == Bound(c, interval) == 2 * c.limit - 1
  {
    var interval := Window(c);
    BurstAdmitted(c, ip, interval);
    BoundOfOneInterval(c);
  }

  /** What the documentation says of the limiter: no span of one interval sees more than `limit`. */
  ghost predicate SlidingWindow(c: Config)
    requires c.interval >= 1000
  {
    forall hits: seq<Hit>, ip: string, from: int :: InOrder(hits) ==>
      InSpan(c, hits, ip, from, Window(c)) <= c.limit
  }

  lemma WithinBound(c: Config, hits: seq<Hit>, ip: string, from: int, length: nat)
    requires Usable(c) && InOrder(hits) && (NoClash(hits, ip) || BlockCountsAsWindow(c))
    ensures InSpan(c, hits, ip, from, length) <= Bound(c, length)
  {
    RateBound(c, map[], hits, ip, |hits|, from, length);
  }

  /** It is a sliding window exactly when it admits one request an interval. */
  lemma SlidingWindowExactly(c: Config)
    requires Usable(c)
    ensures SlidingWindow(c) <==> c.limit == 1
  {
    var interval := Window(c);
    BoundIsReached(c, "");
    if c.limit == 1 {
      forall hits: seq<Hit>, ip: string, from: int | InOrder(hits)
        ensures InSpan(c, hits, ip, from, interval) <= Bound(c, interval)
      {
        WithinBound(c, hits, ip, from, interval);
      }
    }
  }

  // ---------- runs in pieces ----------

  lemma {:induction false} AdmittedPrefix(c: Config, s: Store, first: seq<Hit>, more: seq<Hit>, who: string, n: nat, from: int, to: int)
    requires n <= |first|
    ensures AdmittedIn(c, s, first + more, who, n, from, to) == AdmittedIn(c, s, first, who, n, from, to)
  {
    if n > 0 {
      AdmittedPrefix(c, s, first, more, who, n - 1, from, to);
      assert (first + more)[..n - 1] == first[..n - 1];
    }
  }

  /** `n` arrivals at one moment. */
  function AtOnce(n: nat, at: int): seq<int> {
    seq(n, _ => at)
  }

  /** `all` is `front` followed by `n` requests like `h`. */
  ghost predicate Extends(front: seq<Hit>, all: seq<Hit>, n: nat, h: Hit) {
    |all| == |front| + n && forall i :: 0 <= i < |all| ==> all[i] == if i < |front| then front[i] else h
  }

  lemma TimesAppend(front: seq<Hit>, h: Hit, ip: string)
    ensures Times(front + [h], ip) == Times(front, ip) + if h.ip == ip then [h.at] else []
  {
    assert (front + [h])[..|front|] == front;
  }

  lemma {:induction false} TimesExtended(front: seq<Hit>, all: seq<Hit>, n: nat, h: Hit, ip: string)
    requires Extends(front, all, n, h)
    ensures Times(all, ip) == Times(front, ip) + if h.ip == ip then AtOnce(n, h.at) else []
  {
    if n == 0 {
      assert all == front;
    } else {
      var most := all[..|all| - 1];
      TimesExtended(front, most, n - 1, h, ip);
      assert all == most + [h];
      TimesAppend(most, h, ip);
    }
  }

  ghost predicate UpTo(hits: seq<Hit>, at: int) {
    InOrder(hits) && forall i :: 0 <= i < |hits| ==> hits[i].at <= at
  }

  lemma AppendedTotal(c: Config, s: Store, front: seq<Hit>, h: Hit, all: seq<Hit>, who: string, from: int, to: int)
    requires all == front + [h]
    ensures Total(c, s, all, who, from, to) == Total(c, s, front, who, from, to) +
              if h.ip == who && from <= h.at < to && Admitted(c, s, all, |front|) then 1 else 0
  {
    AdmittedPrefix(c, s, front, [h], who, |front|, from, to);
  }

  lemma AppendedDecision(c: Config, s: Store, front: seq<Hit>, h: Hit, all: seq<Hit>)
    requires all == front + [h]
    ensures After(c, s, all) == Handle(c, After(c, s, front), h.ip, h.at).0
    ensures Admitted(c, s, all, |front|) == Handle(c, After(c, s, front), h.ip, h.at).1
  {
    assert all[..|front|] == front && all[|front|] == h;
  }

  lemma Appended(c: Config, s: Store, front: seq<Hit>, h: Hit, who: string, from: int, to: int)
    ensures var (after, admitted) := Handle(c, After(c, s, front), h.ip, h.at);
            && After(c, s, front + [h]) == after
            && Total(c, s, front + [h], who, from, to) ==
               Total(c, s, front, who, from, to) + if h.ip == who && from <= h.at < to && admitted then 1 else 0
  {
    AppendedTotal(c, s, front, h, front + [h], who, from, to);
    AppendedDecision(c, s, front, h, front + [h]);
  }

  // ---------- an address that passes the bound ----------

  /** A counter that reads 0 is one that is not there. */
  datatype Reading = Reading(k: int, deadline: int)

  ghost predicate Reads(s: Store, ip: string, x: Reading) {
    if x.k == 0 then CountKey(ip) !in s
    else CountKey(ip) in s && s[CountKey(ip)] == Entry(FormatInt(x.k), Some(x.deadline))
  }

  /** What an admitted request makes of its counter. */
  function Counted(c: Config, x: Reading, now: int): Reading {
    if x.k > 0 && now <= x.deadline then Reading(x.k + 1, x.deadline)
    else Reading(1, now + Window(c))
  }

  predicate HasRoom(c: Config, x: Reading, now: int) {
    0 <= x.k && (x.k < c.limit || x.deadline < now)
  }

  lemma Counts(c: Config, s: Store, ip: string, x: Reading, now: int, beside: string, y: Reading)
    requires Usable(c) && CountKey(beside) != CountKey(ip) && x.k <= c.limit && HasRoom(c, x, now)
    requires Reads(s, ip, x) && Reads(s, beside, y)
    ensures var (after, admitted) := Handle(c, s, ip, now);
            admitted && Reads(after, ip, Counted(c, x, now)) && Reads(after, beside, y)
  {
    assert FormatInt(1) == "1";
    if x.k > 0 {
      IntRoundTrip(x.k);
    }
    HandleCases(c, s, ip, now);
  }

  /** How a run stands: up to when, the counters of two addresses, and how many requests of the
      first were admitted in a span. */
  ghost predicate Stands(c: Config, hits: seq<Hit>, at: int, ip: string, x: Reading, other: string, y: Reading,
                         from: int, to: int, admitted: int) {
    && UpTo(hits, at)
    && Reads(After(c, map[], hits), ip, x) && Reads(After(c, map[], hits), other, y)
    && Total(c, map[], hits, ip, from, to) == admitted
  }

  lemma OwnCounts(c: Config, front: seq<Hit>, at: int, ip: string, x: Reading, other: string, y: Reading,
                  from: int, to: int, admitted: int, now: int, x': Reading, admitted': int)
    requires Usable(c) && CountKey(other) != CountKey(ip) && Stands(c, front, at, ip, x, other, y, from, to, admitted)
    requires at <= now && x.k <= c.limit && HasRoom(c, x, now) && x' == Counted(c, x, now)
    requires admitted' == admitted + if from <= now < to then 1 else 0
    ensures Stands(c, front + [Hit(now, ip)], now, ip, x', other, y, from, to, admitted')
  {
    Appended(c, map[], front, Hit(now, ip), ip, from, to);
    Counts(c, After(c, map[], front), ip, x, now, other, y);
  }

  lemma OtherCounts(c: Config, front: seq<Hit>, at: int, ip: string, x: Reading, other: string, y: Reading,
                    from: int, to: int, admitted: int, now: int, y': Reading)
    requires Usable(c) && CountKey(other) != CountKey(ip) && Stands(c, front, at, ip, x, other, y, from, to, admitted)
    requires at <= now && y.k <= c.limit && HasRoom(c, y, now) && y' == Counted(c, y, now)
    ensures Stands(c, front + [Hit(now, other)], now, ip, x, other, y', from, to, admitted)
  {
    Appended(c, map[], front, Hit(now, other), ip, from, to);
    Counts(c, After(c, map[], front), other, y, now, ip, x);
  }

  /** The first address makes `n` requests at one moment in an open window with room for them. */
  lemma {:induction false} OwnFills(c: Config, front: seq<Hit>, at: int, ip: string, x: Reading, other: string, y: Reading,
                                    from: int, to: int, admitted: int, now: int, n: nat, x': Reading, admitted': int)
    returns (hits: seq<Hit>)
    requires Usable(c) && CountKey(other) != CountKey(ip) && Stands(c, front, at, ip, x, other, y, from, to, admitted)
    requires at <= now <= x.deadline && from <= now < to && 1 <= x.k && x.k + n <= c.limit
    requires x' == Reading(x.k + n, x.deadline) && admitted' == admitted + n
    ensures Stands(c, hits, now, ip, x', other, y, from, to, admitted')
    ensures Extends(front, hits, n, Hit(now, ip))
  {
    if n == 0 {
      hits := front;
    } else {
      var x1, more := Reading(x.k + n - 1, x.deadline), admitted + n - 1;
      var most := OwnFills(c, front, at, ip, x, other, y, from, to, admitted, now, n - 1, x1, more);
      OwnCounts(c, most, now, ip, x1, other, y, from, to, more, now, x', admitted');
      hits := most + [Hit(now, ip)];
    }
  }

  lemma {:induction false} OtherFills(c: Config, front: seq<Hit>, at: int, ip: string, x: Reading, other: string, y: Reading,
                                      from: int, to: int, admitted: int, now: int, n: nat, y': Reading)
    returns (hits: seq<Hit>)
    requires Usable(c) && CountKey(other) != CountKey(ip) && Stands(c, front, at, ip, x, other, y, from, to, admitted)
    requires at <= now <= y.deadline && 1 <= y.k && y.k + n <= c.limit
    requires y' == Reading(y.k + n, y.deadline)
    ensures Stands(c, hits, now, ip, x, other, y', from, to, admitted)
    ensures Extends(front, hits, n, Hit(now, other))
  {
    if n == 0 {
      hits := front;
    } else {
      var y1 := Reading(y.k + n - 1, y.deadline);
      var most := OtherFills(c, front, at, ip, x, other, y, from, to, admitted, now, n - 1, y1);
      OtherCounts(c, most, now, ip, x, other, y1, from, to, admitted, now, y');
      hits := most + [Hit(now, other)];
    }
  }

  /** The other address, over its limit, starts a window of the block time for the first. */
  lemma Clash(c: Config, front: seq<Hit>, at: int, ip: string, x: Reading, other: string, y: Reading,
              from: int, to: int, admitted: int, now: int, x': Reading)
    requires Usable(c) && ip == other + BLOCK_SUFFIX && Stands(c, front, at, ip, x, other, y, from, to, admitted)
    requires at <= now <= y.deadline && y.k == c.limit && (x.k != 0 ==> x.k > 0 && x.deadline < now)
    requires x' == Reading(1, now + BlockSpan(c))
    ensures Stands(c, front + [Hit(now, other)], now, ip, x', other, y, from, to, admitted)
  {
    Appended(c, map[], front, Hit(now, other), ip, from, to);
    ClashStep(c, After(c, map[], front), ip, x, other, y, now, x');
  }

  lemma ClashStep(c: Config, s: Store, ip: string, x: Reading, other: string, y: Reading, now: int, x': Reading)
    requires Usable(c) && ip == other + BLOCK_SUFFIX && Reads(s, ip, x) && Reads(s, other, y)
    requires now <= y.deadline && y.k == c.limit && (x.k != 0 ==> x.k > 0 && x.deadline < now)
    requires x' == Reading(1, now + BlockSpan(c))
    ensures Reads(Handle(c, s, other, now).0, ip, x') && Reads(Handle(c, s, other, now).0, other, y)
  {
    IntRoundTrip(c.limit);
    assert FormatInt(1) == "1";
    BlockKeyIsCounter(c, s, other, now);
    HandleCases(c, s, other, now);
  }

  /** The first address opens a window, and at its deadline the other one fills its own. */
  lemma OtherFull(c: Config, ip: string, other: string, interval: int, x: Reading, y: Reading) returns (hits: seq<Hit>)
    requires Usable(c) && interval == Window(c) && CountKey(other) != CountKey(ip)
    requires x == Reading(1, interval) && y == Reading(c.limit, interval + interval)
    ensures Stands(c, hits, interval, ip, x, other, y, interval, interval + interval, 0)
  {
    var to, none, y1 := interval + interval, Reading(0, 0), Reading(1, interval + interval);
    assert Stands(c, [], 0, ip, none, other, none, interval, to, 0);
    OwnCounts(c, [], 0, ip, none, other, none, interval, to, 0, 0, x, 0);
    var first := [] + [Hit(0, ip)];
    OtherCounts(c, first, 0, ip, x, other, none, interval, to, 0, interval, y1);
    hits := OtherFills(c, first + [Hit(interval, other)], interval, ip, x, other, y1, interval, to, 0, interval, c.limit - 1, y);
  }

  /** The clash, and the limit - 1 requests it leaves room for. */
  lemma ClashFills(c: Config, front: seq<Hit>, ip: string, x: Reading, other: string, y: Reading, from: int, to: int,
                   admitted: int, now: int, x': Reading, admitted': int) returns (hits: seq<Hit>)
    requires Usable(c) && ip == other + BLOCK_SUFFIX && CountKey(other) != CountKey(ip) && from < now < to
    requires Stands(c, front, from, ip, x, other, y, from, to, admitted)
    requires now <= y.deadline && y.k == c.limit && (x.k != 0 ==> x.k > 0 && x.deadline < now)
    requires x' == Reading(c.limit, now + BlockSpan(c)) && admitted' == admitted + c.limit - 1
    ensures Stands(c, hits, now, ip, x', other, y, from, to, admitted')
  {
    var x1 := Reading(1, x'.deadline);
    Clash(c, front, from, ip, x, other, y, from, to, admitted, now, x1);
    hits := OwnFills(c, front + [Hit(now, other)], now, ip, x1, other, y, from, to, admitted, now, c.limit - 1, x', admitted');
  }

  /** A full window of the first address, once its counter has run out. */
  lemma NewWindowFills(c: Config, front: seq<Hit>, at: int, ip: string, x: Reading, other: string, y: Reading,
                       from: int, to: int, admitted: int, now: int, admitted': int) returns (hits: seq<Hit>)
    requires Usable(c) && CountKey(other) != CountKey(ip) && Stands(c, front, at, ip, x, other, y, from, to, admitted)
    requires at <= now && from <= now < to && 0 <= x.k <= c.limit && x.deadline < now && admitted' == admitted + c.limit
    ensures InOrder(hits) && Total(c, map[], hits, ip, from, to) == admitted'
  {
    var end := now + Window(c);
    var x1, x' := Reading(1, end), Reading(c.limit, end);
    OwnCounts(c, front, at, ip, x, other, y, from, to, admitted, now, x1, admitted + 1);
    hits := OwnFills(c, front + [Hit(now, ip)], now, ip, x1, other, y, from, to, admitted + 1, now, c.limit - 1, x', admitted');
  }

  /** The first address opens a window and fills it at its deadline, when the other one fills its own. */
  lemma BothFull(c: Config, ip: string, other: string, interval: int, to: int, x: Reading, y: Reading) returns (hits: seq<Hit>)
    requires Usable(c) && CountKey(other) != CountKey(ip) && interval == Window(c) && to == interval + interval
    requires x == Reading(c.limit, interval) && y == Reading(c.limit, to)
    ensures Stands(c, hits, interval, ip, x, other, y, interval, to, c.limit - 1)
  {
    var x1 := Reading(1, interval);
    var full := OtherFull(c, ip, other, interval, x1, y);
    hits := OwnFills(c, full, interval, ip, x1, other, y, interval, to, 0, interval, c.limit - 1, x, c.limit - 1);
  }

  lemma ClashRun(c: Config, ip: string, other: string, interval: int, to: int, end: int) returns (hits: seq<Hit>)
    requires Usable(c) && ip == other + BLOCK_SUFFIX && CountKey(other) != CountKey(ip)
    requires interval == Window(c) && to == interval + interval
    requires end == interval + 1 + BlockSpan(c) && end + 1 < to
    ensures InOrder(hits) && Total(c, map[], hits, ip, interval, to) == 3 * c.limit - 2
  {
    var x, y, x' := Reading(c.limit, interval), Reading(c.limit, to), Reading(c.limit, end);
    var both := BothFull(c, ip, other, interval, to, x, y);
    var again := ClashFills(c, both, ip, x, other, y, interval, to, c.limit - 1, interval + 1, x', 2 * c.limit - 2);
    hits := NewWindowFills(c, again, interval + 1, ip, x', other, y, interval, to, 2 * c.limit - 2, end + 1, 3 * c.limit - 2);
  }

  /** With a block time shorter than the interval and a limit over one, an address spelled with
      ":block" at its end can have 3 * limit - 2 requests admitted in one interval. */
  lemma ClashPassesBound(c: Config, other: string) returns (hits: seq<Hit>)
    requires Usable(c) && !BlockCountsAsWindow(c)
    ensures var interval := Window(c);
            && InOrder(hits)
            && InSpan(c, hits, other + BLOCK_SUFFIX, interval, interval) == 3 * c.limit - 2 > Bound(c, interval)
  {
    var ip, interval, blockTime := other + BLOCK_SUFFIX, Window(c), BlockSpan(c);
    assert |ip| == |other| + 6;
    KeysApart(other, ip);
    hits := ClashRun(c, ip, other, interval, interval + interval, interval + 1 + blockTime);
    BoundOfOneInterval(c);
  }

  ghost predicate BoundHolds(c: Config, ip: string)
    requires c.interval >= 1000
  {
    forall hits: seq<Hit>, from: int, length: nat :: InOrder(hits) ==> InSpan(c, hits, ip, from, length) <= Bound(c, length)
  }

  ghost predicate IsBlockName(ip: string) {
    |ip| >= |BLOCK_SUFFIX| && ip[|ip| - |BLOCK_SUFFIX|..] == BLOCK_SUFFIX
  }

  /** Exactly when the rate bound holds of an address in every run, whatever the other addresses do. */
  lemma BoundHoldsExactly(c: Config, ip: string)
    requires Usable(c)
    ensures BoundHolds(c, ip) <==> BlockCountsAsWindow(c) || !IsBlockName(ip)
  {
    if BlockCountsAsWindow(c) || !IsBlockName(ip) {
      forall hits: seq<Hit>, from: int, length: nat | InOrder(hits)
        ensures InSpan(c, hits, ip, from, length) <= Bound(c, length)
      {
        assert forall x: string :: x + BLOCK_SUFFIX == ip ==> IsBlockName(ip);
        WithinBound(c, hits, ip, from, length);
      }
    } else {
      var other := ip[..|ip| - |BLOCK_SUFFIX|];
      assert other + BLOCK_SUFFIX == ip;
      var hits := ClashPassesBound(c, other);
    }
  }

  // ---------- decisions ----------

  /** This decision is the reference's on the arrivals of its address. */
  ghost predicate FollowsAt(c: Config, hits: seq<Hit>, i: nat)
    requires i < |hits|
  {
    var times := Times(hits[..i + 1], hits[i].ip);
    |times| > 0 && Admitted(c, map[], hits, i) == Passes(times, Window(c), c.limit, |times| - 1)
  }

  /** In every run each decision on this address is. */
  ghost predicate FollowsReference(c: Config, ip: string) {
    forall hits: seq<Hit>, i: nat :: i < |hits| && InOrder(hits) && hits[i].ip == ip ==> FollowsAt(c, hits, i)
  }

  /** The other address fills its window and is turned away. */
  function ClashHits(limit: nat, other: string): seq<Hit> {
    seq(limit + 1, _ => Hit(0, other))
  }

  /** After that this one's first limit - 1 requests, which fill its counter. */
  function FullHits(limit: nat, ip: string, other: string): seq<Hit> {
    seq(2 * limit, i => if i <= limit then Hit(0, other) else Hit(0, ip))
  }

  lemma OtherFullAtStart(c: Config, ip: string, other: string, y: Reading) returns (full: seq<Hit>)
    requires Usable(c) && CountKey(other) != CountKey(ip) && y == Reading(c.limit, Window(c))
    ensures Stands(c, full, 0, ip, Reading(0, 0), other, y, 0, 1, 0) && Extends([], full, c.limit, Hit(0, other))
  {
    var none, y1 := Reading(0, 0), Reading(1, y.deadline);
    assert Stands(c, [], 0, ip, none, other, none, 0, 1, 0);
    OtherCounts(c, [], 0, ip, none, other, none, 0, 1, 0, 0, y1);
    full := OtherFills(c, [] + [Hit(0, other)], 0, ip, none, other, y1, 0, 1, 0, 0, c.limit - 1, y);
  }

  lemma ClashAtStart(c: Config, ip: string, other: string, x: Reading, y: Reading, front: seq<Hit>)
    requires Usable(c) && ip == other + BLOCK_SUFFIX && CountKey(other) != CountKey(ip)
    requires x == Reading(1, BlockSpan(c)) && y == Reading(c.limit, Window(c))
    requires front == ClashHits(c.limit, other)
    ensures Stands(c, front, 0, ip, x, other, y, 0, 1, 0)
  {
    var full := OtherFullAtStart(c, ip, other, y);
    Clash(c, full, 0, ip, Reading(0, 0), other, y, 0, 1, 0, 0, x);
    assert full + [Hit(0, other)] == front;
  }

  lemma ClashTimes(limit: nat, ip: string, other: string)
    requires ip != other
    ensures Times(ClashHits(limit, other), ip) == []
  {
    TimesExtended([], ClashHits(limit, other), limit + 1, Hit(0, other), ip);
  }

  lemma FullAtStart(c: Config, ip: string, other: string, front: seq<Hit>)
    requires Usable(c) && ip == other + BLOCK_SUFFIX && CountKey(other) != CountKey(ip)
    requires front == FullHits(c.limit, ip, other)
    ensures UpTo(front, 0) && Total(c, map[], front, ip, 0, 1) == c.limit - 1
    ensures Reads(After(c, map[], front), ip, Reading(c.limit, BlockSpan(c)))
  {
    var end, clashed := BlockSpan(c), ClashHits(c.limit, other);
    var x1, x, y := Reading(1, end), Reading(c.limit, end), Reading(c.limit, Window(c));
    ClashAtStart(c, ip, other, x1, y, clashed);
    var all := OwnFills(c, clashed, 0, ip, x1, other, y, 0, 1, 0, 0, c.limit - 1, x, c.limit - 1);
    assert all == front;
  }

  lemma FullTimes(limit: nat, ip: string, other: string)
    requires limit >= 1 && ip != other
    ensures Times(FullHits(limit, ip, other), ip) == AtOnce(limit - 1, 0)
  {
    ClashTimes(limit, ip, other);
    TimesExtended(ClashHits(limit, other), FullHits(limit, ip, other), limit - 1, Hit(0, ip), ip);
  }

  lemma FullCounterRefuses(c: Config, s: Store, ip: string, now: int, deadline: int)
    requires Usable(c) && Reads(s, ip, Reading(c.limit, deadline)) && now <= deadline
    ensures !Handle(c, s, ip, now).1
  {
    IntRoundTrip(c.limit);
    HandleCases(c, s, ip, now);
  }

  lemma RefutedBy(c: Config, ip: string, front: seq<Hit>, hits: seq<Hit>)
    requires hits == front + [Hit(0, ip)] && UpTo(front, 0) && |Times(front, ip)| < c.limit
    requires !Handle(c, After(c, map[], front), ip, 0).1
    ensures !FollowsReference(c, ip)
  {
    TimesAppend(front, Hit(0, ip), ip);
    assert hits[..|front|] == front && hits[..|front| + 1] == hits;
    assert !FollowsAt(c, hits, |front|);
  }

  lemma BlockNameIsRefused(c: Config, other: string)
    requires Usable(c)
    ensures !FollowsReference(c, other + BLOCK_SUFFIX)
  {
    var ip := other + BLOCK_SUFFIX;
    assert |ip| == |other| + 6;
    KeysApart(other, ip);
    var front := FullHits(c.limit, ip, other);
    FullAtStart(c, ip, other, front);
    FullTimes(c.limit, ip, other);
    FullCounterRefuses(c, After(c, map[], front), ip, 0, BlockSpan(c));
    RefutedBy(c, ip, front, front + [Hit(0, ip)]);
  }

  /** Exactly when every decision on an address is the fixed window's, whatever the others do. */
  lemma FollowsExactly(c: Config, ip: string)
    requires Usable(c)
    ensures FollowsReference(c, ip) <==> !IsBlockName(ip)
  {
    if IsBlockName(ip) {
      var other := ip[..|ip| - |BLOCK_SUFFIX|];
      assert other + BLOCK_SUFFIX == ip;
      BlockNameIsRefused(c, other);
    } else {
      forall hits: seq<Hit>, i: nat | i < |hits| && InOrder(hits) && hits[i].ip == ip
        ensures FollowsAt(c, hits, i)
      {
        assert forall x: string :: x + BLOCK_SUFFIX == ip ==> IsBlockName(ip);
        LimiterIsFixedWindow(c, map[], hits, i);
      }
    }
  }

  // ---------- counters ----------

  /** After every run the counter is the one read off the address's arrivals. */
  ghost predicate CounterFollows(c: Config, ip: string) {
    forall hits: seq<Hit> :: CounterReflects(c, After(c, map[], hits), ip, Times(hits, ip))
  }

  lemma ClashMisleads(c: Config, ip: string, other: string, front: seq<Hit>)
    requires Usable(c) && ip == other + BLOCK_SUFFIX && CountKey(other) != CountKey(ip)
    requires front == ClashHits(c.limit, other)
    ensures !CounterReflects(c, After(c, map[], front), ip, Times(front, ip))
  {
    var x, y := Reading(1, BlockSpan(c)), Reading(c.limit, Window(c));
    ClashAtStart(c, ip, other, x, y, front);
    ClashTimes(c.limit, ip, other);
  }

  /** Exactly when that is so, whatever the other addresses do. */
  lemma CounterFollowsExactly(c: Config, ip: string)
    requires Usable(c)
    ensures CounterFollows(c, ip) <==> !IsBlockName(ip)
  {
    if IsBlockName(ip) {
      var other := ip[..|ip| - |BLOCK_SUFFIX|];
      assert other + BLOCK_SUFFIX == ip;
      KeysApart(other, ip);
      ClashMisleads(c, ip, other, ClashHits(c.limit, other));
    } else {
      forall hits: seq<Hit> ensures CounterReflects(c, After(c, map[], hits), ip, Times(hits, ip)) {
        assert forall x: string :: x + BLOCK_SUFFIX == ip ==> IsBlockName(ip);
        CounterAfterRun(c, map[], hits, ip);
      }
    }
  }

  /** What the last window of an address admits is the smaller of the limit and its requests. */
  ghost predicate TotalIsMin(c: Config, hits: seq<Hit>, ip: string)
    requires |Times(hits, ip)| > 0
  {
    var times := Times(hits, ip);
    var w := Opener(times, Window(c), |times| - 1);
    Total(c, map[], hits, ip, times[w], times[|times| - 1] + 1) == Min(c.limit, |times| - w)
  }

  ghost predicate WindowsAreWhole(c: Config, ip: string) {
    forall hits: seq<Hit> :: InOrder(hits) && |Times(hits, ip)| > 0 ==> TotalIsMin(c, hits, ip)
  }

  lemma ClashShortensWindow(c: Config, ip: string, other: string)
    requires Usable(c) && ip == other + BLOCK_SUFFIX && CountKey(other) != CountKey(ip)
    ensures !WindowsAreWhole(c, ip)
  {
    var front, h := FullHits(c.limit, ip, other), Hit(0, ip);
    FullAtStart(c, ip, other, front);
    FullTimes(c.limit, ip, other);
    FullCounterRefuses(c, After(c, map[], front), ip, 0, BlockSpan(c));
    Appended(c, map[], front, h, ip, 0, 1);
    TimesAppend(front, h, ip);
    assert AtOnce(c.limit - 1, 0) + [0] == AtOnce(c.limit, 0);
    OneShort(c, front + [h], ip);
    NotWhole(c, front + [h], ip);
  }

  lemma TotalIsMinOf(c: Config, hits: seq<Hit>, ip: string, times: seq<int>, last: nat, w: nat, from: int, to: int, k: int)
    requires |times| == last + 1 && Times(hits, ip) == times && w == Opener(times, Window(c), last)
    requires from == times[w] && to == times[last] + 1 && k == Min(c.limit, last + 1 - w)
    ensures TotalIsMin(c, hits, ip) <==> Total(c, map[], hits, ip, from, to) == k
  {
  }

  lemma OneShort(c: Config, hits: seq<Hit>, ip: string)
    requires Usable(c) && Times(hits, ip) == AtOnce(c.limit, 0) && Total(c, map[], hits, ip, 0, 1) == c.limit - 1
    ensures |Times(hits, ip)| > 0 && !TotalIsMin(c, hits, ip)
  {
    OneWindow(c.limit, Window(c), c.limit - 1);
    TotalIsMinOf(c, hits, ip, AtOnce(c.limit, 0), c.limit - 1, 0, 0, 1, c.limit);
  }

  lemma NotWhole(c: Config, hits: seq<Hit>, ip: string)
    requires InOrder(hits) && |Times(hits, ip)| > 0 && !TotalIsMin(c, hits, ip)
    ensures !WindowsAreWhole(c, ip)
  {
  }

  /** Exactly when every window of an address admits that many, whatever the others do. */
  lemma WindowTotalExactly(c: Config, ip: string)
    requires Usable(c)
    ensures WindowsAreWhole(c, ip) <==> !IsBlockName(ip)
  {
    if IsBlockName(ip) {
      var other := ip[..|ip| - |BLOCK_SUFFIX|];
      assert other + BLOCK_SUFFIX == ip;
      KeysApart(other, ip);
      ClashShortensWindow(c, ip, other);
    } else {
      forall hits: seq<Hit> | InOrder(hits) && |Times(hits, ip)| > 0 ensures TotalIsMin(c, hits, ip) {
        assert forall x: string :: x + BLOCK_SUFFIX == ip ==> IsBlockName(ip);
        WindowTotal(c, map[], hits, ip);
      }
    }
  }

  // ---------- block times of a second or more ----------

  ghost predicate BlockTimeNeverMatters(c: Config, ip: string) {
    forall one: int, two: int, hits: seq<Hit>, i: nat ::
      (one >= 1000 && two >= 1000 && i < |hits| && InOrder(hits) && hits[i].ip == ip) ==>
        Admitted(c.(blockTime := one), map[], hits, i) == Admitted(c.(blockTime := two), map[], hits, i)
  }

  /** With a block time of one second the clash is over when the next request comes, with two it is not. */
  lemma ClashShowsBlockTime(c: Config, ip: string, other: string)
    requires Usable(c) && ip == other + BLOCK_SUFFIX && CountKey(other) != CountKey(ip)
    ensures !BlockTimeNeverMatters(c, ip)
  {
    var front := FullHits(c.limit, ip, other);
    var hits := front + [Hit(1001, ip)];
    AfterOneSecond(c.(blockTime := 1000), ip, other, front, hits);
    AfterTwoSeconds(c.(blockTime := 2000), ip, other, front, hits);
    FullAtStart(c, ip, other, front);
    assert InOrder(hits) && hits[|front|].ip == ip;
  }

  lemma AfterOneSecond(c: Config, ip: string, other: string, front: seq<Hit>, hits: seq<Hit>)
    requires Usable(c) && ip == other + BLOCK_SUFFIX && CountKey(other) != CountKey(ip) && c.blockTime == 1000
    requires front == FullHits(c.limit, ip, other) && hits == front + [Hit(1001, ip)]
    ensures Admitted(c, map[], hits, |front|)
  {
    FullAtStart(c, ip, other, front);
    assert hits[..|front|] == front;
    AdmittedOnceOver(c, After(c, map[], front), ip, 1001, 1000);
  }

  lemma AfterTwoSeconds(c: Config, ip: string, other: string, front: seq<Hit>, hits: seq<Hit>)
    requires Usable(c) && ip == other + BLOCK_SUFFIX && CountKey(other) != CountKey(ip) && c.blockTime == 2000
    requires front == FullHits(c.limit, ip, other) && hits == front + [Hit(1001, ip)]
    ensures !Admitted(c, map[], hits, |front|)
  {
    FullAtStart(c, ip, other, front);
    assert hits[..|front|] == front;
    FullCounterRefuses(c, After(c, map[], front), ip, 1001, 2000);
  }

  lemma AdmittedOnceOver(c: Config, s: Store, ip: string, now: int, deadline: int)
    requires Usable(c) && Reads(s, ip, Reading(c.limit, deadline)) && deadline < now
    ensures Handle(c, s, ip, now).1
  {
    HandleCases(c, s, ip, now);
  }

  /** Exactly when no two block times of a second or more decide differently on an address, in any run. */
  lemma BlockTimeExactly(c: Config, ip: string)
    requires Usable(c)
    ensures BlockTimeNeverMatters(c, ip) <==> !IsBlockName(ip)
  {
    if IsBlockName(ip) {
      var other := ip[..|ip| - |BLOCK_SUFFIX|];
      assert other + BLOCK_SUFFIX == ip;
      KeysApart(other, ip);
      ClashShowsBlockTime(c, ip, other);
    } else {
      forall one: int, two: int, hits: seq<Hit>, i: nat
        | one >= 1000 && two >= 1000 && i < |hits| && InOrder(hits) && hits[i].ip == ip
        ensures Admitted(c.(blockTime := one), map[], hits, i) == Admitted(c.(blockTime := two), map[], hits, i)
      {
        assert forall x: string :: x + BLOCK_SUFFIX == ip ==> IsBlockName(ip);
        BlockTimeIsIrrelevant(c.(blockTime := one), two, map[], hits, i);
      }
    }
  }

  // ---------- block times under a second ----------

  /** SETEX refuses such a block time, the script fails, and a failing script lets the request
      through. Only an address whose counter is this one's block key can still turn it away. */
  lemma {:induction false} ShortBlockKeepsKey(c: Config, s: Store, hits: seq<Hit>, ip: string)
    requires c.blockTime < 1000 && BlockKey(CountKey(ip)) !in s
    requires forall h :: h in hits ==> h.ip != ip + BLOCK_SUFFIX
    ensures BlockKey(CountKey(ip)) !in After(c, s, hits)
  {
    if |hits| > 0 {
      var n := |hits| - 1;
      ShortBlockKeepsKey(c, s, hits[..n], ip);
      assert hits[n] in hits;
      ShortBlockFrame(c, After(c, s, hits[..n]), hits[n], ip);
    }
  }

  lemma ShortBlockFrame(c: Config, s: Store, h: Hit, ip: string)
    requires c.blockTime < 1000 && BlockKey(CountKey(ip)) !in s && h.ip != ip + BLOCK_SUFFIX
    ensures BlockKey(CountKey(ip)) !in Handle(c, s, h.ip, h.at).0
  {
    assert CountKey(h.ip)[|KEY_PREFIX|..] == h.ip;
    assert BlockKey(CountKey(ip))[|KEY_PREFIX|..] == ip + BLOCK_SUFFIX;
  }

  lemma ShortBlockDecision(c: Config, s: Store, ip: string, now: int)
    requires c.blockTime < 1000 && BlockKey(CountKey(ip)) !in s
    ensures Handle(c, s, ip, now).1
  {
  }

  lemma ShortBlockAdmitsAll(c: Config, s: Store, hits: seq<Hit>, i: nat)
    requires c.blockTime < 1000 && i < |hits| && BlockKey(CountKey(hits[i].ip)) !in s
    requires forall h :: h in hits ==> h.ip != hits[i].ip + BLOCK_SUFFIX
    ensures Admitted(c, s, hits, i)
  {
    assert forall h :: h in hits[..i] ==> h in hits;
    ShortBlockKeepsKey(c, s, hits[..i], hits[i].ip);
    ShortBlockDecision(c, After(c, s, hits[..i]), hits[i].ip, hits[i].at);
  }

  lemma {:induction false} OneWindow(n: nat, interval: int, i: nat)
    requires i < n && interval > 0
    ensures Opener(AtOnce(n, 0), interval, i) == 0
  {
    if i > 0 {
      OneWindow(n, interval, i - 1);
    }
  }

  lemma OneTooMany(c: Config, ip: string)
    requires Usable(c)
    ensures !Admitted(c, map[], HitsOf(AtOnce(c.limit + 1, 0), ip), c.limit)
  {
    var times := AtOnce(c.limit + 1, 0);
    var hits := HitsOf(times, ip);
    TimesOfHits(times, ip);
    OneWindow(c.limit + 1, Window(c), c.limit);
    assert |ip + BLOCK_SUFFIX| == |ip| + 6;
    assert hits[..c.limit + 1] == hits;
    LimiterIsFixedWindow(c, map[], hits, c.limit);
  }

  ghost predicate EverRejects(c: Config, ip: string) {
    exists hits: seq<Hit>, i: nat ::
      i < |hits| && (forall h :: h in hits ==> h.ip == ip) && InOrder(hits) && !Admitted(c, map[], hits, i)
  }

  /** The limiter ever turns an address away on its own account exactly when the block time is a second or more. */
  lemma RejectsExactly(c: Config, ip: string)
    requires 1 <= c.limit <= MAX_INT64 && c.interval >= 1000
    ensures EverRejects(c, ip) <==> c.blockTime >= 1000
  {
    assert |ip + BLOCK_SUFFIX| == |ip| + 6;
    if c.blockTime < 1000 {
      forall hits: seq<Hit>, i: nat | i < |hits| && (forall h :: h in hits ==> h.ip == ip)
        ensures Admitted(c, map[], hits, i)
      {
        assert hits[i] in hits;
        ShortBlockAdmitsAll(c, map[], hits, i);
      }
    } else {
      OneTooMany(c, ip);
    }
  }
}
