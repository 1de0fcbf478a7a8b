/** What the rate limiter amounts to: arrivals fall into fixed windows, each opened by the
    first arrival after the previous one ran out, and the first `limit` arrivals of a window pass. */
module FixedWindow {
  import opened Prelude
  import opened Decimal
  import opened Redis
  import opened RateLimiter

  // ---------- the reference: decisions from arrival times alone ----------

  ghost predicate Ascending(times: seq<int>) {
    forall i, j :: 0 <= i <= j < |times| ==> times[i] <= times[j]
  }

  /** The arrival that opened the window arrival `i` falls into. */
  function Opener(times: seq<int>, interval: int, i: nat): (w: nat)
    requires i < |times|
    ensures w <= i
  {
    if i == 0 then 0
    else
      var w := Opener(times, interval, i - 1);
      if times[i] <= times[w] + interval then w else i
  }

  predicate Passes(times: seq<int>, interval: int, limit: int, i: nat)
    requires i < |times|
  {
    i - Opener(times, interval, i) < limit
  }

  /** How many of the first `n` arrivals lie in [from, to) and pass. */
  function PassedIn(times: seq<int>, interval: int, limit: int, n: nat, from: int, to: int): nat
    requires n <= |times|
  {
    if n == 0 then 0
    else PassedIn(times, interval, limit, n - 1, from, to) +
         if from <= times[n - 1] < to && Passes(times, interval, limit, n - 1) then 1 else 0
  }

  function Min(a: int, b: int): int {
    if a <= b then a else b
  }

  lemma {:induction false} OpenerFacts(times: seq<int>, interval: int, i: nat)
    requires i < |times| && Ascending(times) && interval > 0
    ensures times[i] <= times[Opener(times, interval, i)] + interval
    ensures forall k :: Opener(times, interval, i) <= k <= i ==>
              Opener(times, interval, k) == Opener(times, interval, i)
  {
    if i > 0 {
      OpenerFacts(times, interval, i - 1);
    }
  }

  lemma {:induction false} NothingBefore(times: seq<int>, interval: int, limit: int, n: nat, from: int, to: int)
    requires n <= |times| && forall k :: 0 <= k < n ==> times[k] < from
    ensures PassedIn(times, interval, limit, n, from, to) == 0
  {
    if n > 0 {
      NothingBefore(times, interval, limit, n - 1, from, to);
    }
  }

  /** The window of the last arrival lets through exactly the smaller of the limit and its arrivals. */
  lemma WindowPasses(times: seq<int>, interval: int, limit: int)
    requires |times| > 0 && Ascending(times) && interval > 0 && limit >= 1
    ensures var n := |times|;
            var w := Opener(times, interval, n - 1);
            PassedIn(times, interval, limit, n, times[w], times[n - 1] + 1) == Min(limit, n - w)
  {
    var n := |times|;
    var w := Opener(times, interval, n - 1);
    InWindow(times, interval, w);
    EarlierThanOpener(times, interval, n - 1);
    NothingBefore(times, interval, limit, w, times[w], times[n - 1] + 1);
    WindowPrefix(times, interval, limit, w, n, times[w], times[n - 1] + 1);
  }

  /** Every arrival from the opener on is in the last window and in its span. */
  lemma InWindow(times: seq<int>, interval: int, w: nat)
    requires |times| > 0 && Ascending(times) && interval > 0 && w == Opener(times, interval, |times| - 1)
    ensures forall k :: w <= k < |times| ==> times[w] <= times[k] < times[|times| - 1] + 1 && Opener(times, interval, k) == w
  {
    OpenerFacts(times, interval, |times| - 1);
  }

  lemma {:induction false} EarlierThanOpener(times: seq<int>, interval: int, i: nat)
    requires i < |times| && Ascending(times) && interval > 0
    ensures forall k :: 0 <= k < Opener(times, interval, i) ==> times[k] < times[Opener(times, interval, i)]
  {
    if i > 0 {
      EarlierThanOpener(times, interval, i - 1);
      OpenerFacts(times, interval, i - 1);
    }
  }

  lemma {:induction false} WindowPrefix(times: seq<int>, interval: int, limit: int, w: nat, n: nat, from: int, to: int)
    requires w <= n <= |times| && limit >= 1
    requires forall k :: w <= k < n ==> from <= times[k] < to && Opener(times, interval, k) == w
    ensures PassedIn(times, interval, limit, n, from, to)
            == PassedIn(times, interval, limit, w, from, to) + Min(limit, n - w)
  {
    if w < n {
      WindowPrefix(times, interval, limit, w, n - 1, from, to);
    }
  }

  // ---------- the limiter on Redis, over any number of addresses ----------

  datatype Hit = Hit(at: int, ip: string)

  ghost predicate InOrder(hits: seq<Hit>) {
    forall i, j :: 0 <= i <= j < |hits| ==> hits[i].at <= hits[j].at
  }

  /** No address in the run is spelled so that its block key is this address's counter. */
  ghost predicate NoClash(hits: seq<Hit>, ip: string) {
    forall h :: h in hits ==> h.ip + BLOCK_SUFFIX != ip
  }

  function After(c: Config, s: Store, hits: seq<Hit>): Store {
    if |hits| == 0 then s
    else
      var last := hits[|hits| - 1];
      Handle(c, After(c, s, hits[..|hits| - 1]), last.ip, last.at).0
  }

  predicate Admitted(c: Config, s: Store, hits: seq<Hit>, i: nat)
    requires i < |hits|
  {
    Handle(c, After(c, s, hits[..i]), hits[i].ip, hits[i].at).1
  }

  function Times(hits: seq<Hit>, ip: string): seq<int> {
    if |hits| == 0 then []
    else
      var last := hits[|hits| - 1];
      Times(hits[..|hits| - 1], ip) + if last.ip == ip then [last.at] else []
  }

  function AdmittedIn(c: Config, s: Store, hits: seq<Hit>, ip: string, n: nat, from: int, to: int): nat
    requires n <= |hits|
  {
    if n == 0 then 0
    else AdmittedIn(c, s, hits, ip, n - 1, from, to) +
         if hits[n - 1].ip == ip && from <= hits[n - 1].at < to && Admitted(c, s, hits, n - 1) then 1 else 0
  }

  lemma {:induction false} TimesFacts(hits: seq<Hit>, ip: string)
    requires InOrder(hits)
    ensures Ascending(Times(hits, ip))
    ensures |hits| > 0 ==> forall k :: 0 <= k < |Times(hits, ip)| ==> Times(hits, ip)[k] <= hits[|hits| - 1].at
  {
    if |hits| > 0 {
      TimesFacts(hits[..|hits| - 1], ip);
    }
  }

  /** What the counter of these arrivals reads, and when it runs out: the open window's arrivals up
      to the limit, and an interval from its opener on. */
  function CountOf(c: Config, times: seq<int>): int
    requires |times| > 0
  {
    Min(c.limit, |times| - Opener(times, Window(c), |times| - 1))
  }

  function RunsOut(c: Config, times: seq<int>): int
    requires |times| > 0
  {
    times[Opener(times, Window(c), |times| - 1)] + Window(c)
  }

  /** What an address's counter entry must be after a run, read off its arrival times. */
  ghost predicate CounterReflects(c: Config, s: Store, ip: string, times: seq<int>) {
    if |times| == 0 then CountKey(ip) !in s
    else CountKey(ip) in s && s[CountKey(ip)] == Entry(FormatInt(CountOf(c, times)), Some(RunsOut(c, times)))
  }

  lemma {:induction false} OpenerPrefix(times: seq<int>, more: seq<int>, interval: int, i: nat)
    requires i < |times|
    ensures Opener(times + more, interval, i) == Opener(times, interval, i)
  {
    if i > 0 {
      OpenerPrefix(times, more, interval, i - 1);
    }
  }

  /** What one request does to its own counter, in the three cases of the script. */
  lemma HandleCases(c: Config, s: Store, ip: string, now: int)
    requires Usable(c) && Count(s, CountKey(ip), now) >= 0
    requires Live(s, CountKey(ip), now) ==> Count(s, CountKey(ip), now) > 0
    ensures var (after, admitted) := Handle(c, s, ip, now);
            var (key, current) := (CountKey(ip), Count(s, CountKey(ip), now));
            && (current >= c.limit ==> !admitted && key in after && after[key] == s[key])
            && (current == 0 ==>
                  admitted && key in after && after[key] == Entry("1", Some(now + Window(c))))
            && (0 < current < c.limit ==>
                  admitted && key in after && after[key] == Entry(FormatInt(current + 1), s[key].deadline))
  {
    WholeSecondsExactly(c.interval);
    assert |BlockKey(CountKey(ip))| == |CountKey(ip)| + 6;
  }

  /** One more arrival joins the open window or opens its own. */
  lemma OpenerOfNext(times: seq<int>, now: int, interval: int)
    requires |times| > 0
    ensures var w := Opener(times, interval, |times| - 1);
            Opener(times + [now], interval, |times|) == if now <= times[w] + interval then w else |times|
  {
    OpenerPrefix(times, [now], interval, |times| - 1);
  }

  /** Whether the window of the last arrival is still open. */
  predicate WindowOpen(c: Config, times: seq<int>, now: int) {
    |times| > 0 && now <= RunsOut(c, times)
  }

  /** What an address's open window, if any, makes its counter read. */
  lemma CountIs(c: Config, s: Store, ip: string, times: seq<int>, now: int)
    requires Usable(c) && CounterReflects(c, s, ip, times)
    ensures Live(s, CountKey(ip), now) <==> WindowOpen(c, times, now)
    ensures Count(s, CountKey(ip), now) == if WindowOpen(c, times, now) then CountOf(c, times) else 0
    ensures WindowOpen(c, times, now) ==> 1 <= CountOf(c, times) <= c.limit
  {
    if |times| > 0 {
      IntRoundTrip(CountOf(c, times));
    }
  }

  /** One more arrival in an open window, or in a new one, in the terms of the reference. */
  lemma CountOfNext(c: Config, times: seq<int>, now: int)
    requires Usable(c)
    ensures var all := times + [now];
            if WindowOpen(c, times, now)
            then CountOf(c, all) == Min(c.limit, CountOf(c, times) + 1) && RunsOut(c, all) == RunsOut(c, times)
            else CountOf(c, all) == 1 && RunsOut(c, all) == now + Window(c)
    ensures Passes(times + [now], Window(c), c.limit, |times|)
            <==> (WindowOpen(c, times, now) ==> CountOf(c, times) < c.limit)
  {
    var all, interval := times + [now], Window(c);
    if |times| > 0 {
      OpenerOfNext(times, now, interval);
    }
    var w := Opener(all, interval, |times|);
    assert all[w] == if w < |times| then times[w] else now;
  }

  /** The decision on one more request is the reference's, and the counter follows. */
  ghost predicate HitFollows(c: Config, s: Store, ip: string, times: seq<int>, now: int) {
    var (after, admitted) := Handle(c, s, ip, now);
    && CounterReflects(c, after, ip, times + [now])
    && admitted == Passes(times + [now], Window(c), c.limit, |times|)
  }

  lemma HitWhenRunOut(c: Config, s: Store, ip: string, times: seq<int>, now: int)
    requires Usable(c) && CounterReflects(c, s, ip, times) && !WindowOpen(c, times, now)
    ensures HitFollows(c, s, ip, times, now)
  {
    CountIs(c, s, ip, times, now);
    CountOfNext(c, times, now);
    HandleCases(c, s, ip, now);
    assert FormatInt(1) == "1";
  }

  lemma HitWithRoom(c: Config, s: Store, ip: string, times: seq<int>, now: int)
    requires Usable(c) && CounterReflects(c, s, ip, times) && WindowOpen(c, times, now) && CountOf(c, times) < c.limit
    ensures HitFollows(c, s, ip, times, now)
  {
    CountIs(c, s, ip, times, now);
    CountOfNext(c, times, now);
    HandleCases(c, s, ip, now);
  }

  lemma HitWhenFull(c: Config, s: Store, ip: string, times: seq<int>, now: int)
    requires Usable(c) && CounterReflects(c, s, ip, times) && WindowOpen(c, times, now) && CountOf(c, times) >= c.limit
    ensures HitFollows(c, s, ip, times, now)
  {
    CountIs(c, s, ip, times, now);
    CountOfNext(c, times, now);
    HandleCases(c, s, ip, now);
  }

  /** One request from this address, in the three cases of the script. */
  lemma OwnHit(c: Config, s: Store, ip: string, times: seq<int>, now: int)
    requires Usable(c) && CounterReflects(c, s, ip, times)
    ensures HitFollows(c, s, ip, times, now)
  {
    if !WindowOpen(c, times, now) {
      HitWhenRunOut(c, s, ip, times, now);
    } else if CountOf(c, times) < c.limit {
      HitWithRoom(c, s, ip, times, now);
    } else {
      HitWhenFull(c, s, ip, times, now);
    }
  }

  lemma KeysApart(ip: string, other: string)
    requires other != ip && other + BLOCK_SUFFIX != ip
    ensures CountKey(ip) != CountKey(other) && CountKey(ip) != BlockKey(CountKey(other))
  {
    assert CountKey(other)[|KEY_PREFIX|..] == other;
    assert CountKey(ip)[|KEY_PREFIX|..] == ip;
    assert BlockKey(CountKey(other))[|KEY_PREFIX|..] == other + BLOCK_SUFFIX;
  }

  lemma ForeignHit(c: Config, s: Store, ip: string, times: seq<int>, other: string, now: int)
    requires other != ip && other + BLOCK_SUFFIX != ip && CounterReflects(c, s, ip, times)
    ensures CounterReflects(c, Handle(c, s, other, now).0, ip, times)
  {
    KeysApart(ip, other);
    HandleFrame(c, s, other, now, CountKey(ip));
  }

  lemma AnyHit(c: Config, s: Store, ip: string, times: seq<int>, h: Hit)
    requires Usable(c) && CounterReflects(c, s, ip, times) && h.ip + BLOCK_SUFFIX != ip
    ensures CounterReflects(c, Handle(c, s, h.ip, h.at).0, ip, times + if h.ip == ip then [h.at] else [])
  {
    if h.ip == ip {
      OwnHit(c, s, ip, times, h.at);
    } else {
      ForeignHit(c, s, ip, times, h.ip, h.at);
      assert times + [] == times;
    }
  }

  lemma {:induction false} CounterAfterRun(c: Config, s: Store, hits: seq<Hit>, ip: string)
    requires Usable(c) && NoClash(hits, ip) && CountKey(ip) !in s
    ensures CounterReflects(c, After(c, s, hits), ip, Times(hits, ip))
  {
    if |hits| > 0 {
      var n := |hits| - 1;
      CounterAfterRun(c, s, hits[..n], ip);
      assert hits[n] in hits;
      AnyHit(c, After(c, s, hits[..n]), ip, Times(hits[..n], ip), hits[n]);
    }
  }

  /** Every decision of the limiter is the reference's decision on that address's arrivals. */
  lemma LimiterIsFixedWindow(c: Config, s: Store, hits: seq<Hit>, i: nat)
    requires Usable(c) && i < |hits|
    requires NoClash(hits, hits[i].ip) && CountKey(hits[i].ip) !in s
    ensures var times := Times(hits[..i + 1], hits[i].ip);
            && |times| > 0 && times[|times| - 1] == hits[i].at
            && Admitted(c, s, hits, i) == Passes(times, Window(c), c.limit, |times| - 1)
  {
    TimesUpTo(hits, i);
    DecisionAfterRun(c, s, hits[..i], hits[i].ip, Times(hits[..i], hits[i].ip), hits[i].at);
  }

  lemma TimesUpTo(hits: seq<Hit>, i: nat)
    requires i < |hits|
    ensures Times(hits[..i + 1], hits[i].ip) == Times(hits[..i], hits[i].ip) + [hits[i].at]
  {
    assert hits[..i + 1][..i] == hits[..i];
  }

  lemma DecisionAfterRun(c: Config, s: Store, hits: seq<Hit>, ip: string, before: seq<int>, at: int)
    requires Usable(c) && NoClash(hits, ip) && CountKey(ip) !in s
    requires before == Times(hits, ip)
    ensures Handle(c, After(c, s, hits), ip, at).1
            == Passes(before + [at], Window(c), c.limit, |before|)
  {
    CounterAfterRun(c, s, hits, ip);
    OwnHit(c, After(c, s, hits), ip, before, at);
  }

  /** Among block times of a second or more the block time changes no decision: the block key is
      written and never consulted for one. */
  lemma BlockTimeIsIrrelevant(c: Config, blockTime: int, s: Store, hits: seq<Hit>, i: nat)
    requires Usable(c) && blockTime >= 1000 && i < |hits|
    requires NoClash(hits, hits[i].ip) && CountKey(hits[i].ip) !in s
    ensures Admitted(c.(blockTime := blockTime), s, hits, i) == Admitted(c, s, hits, i)
  {
    var other := c.(blockTime := blockTime);
    var times := Times(hits[..i + 1], hits[i].ip);
    LimiterIsFixedWindow(c, s, hits, i);
    LimiterIsFixedWindow(other, s, hits, i);
    assert Window(other) == Window(c) && other.limit == c.limit;
    assert Admitted(c, s, hits, i) == Passes(times, Window(c), c.limit, |times| - 1) == Admitted(other, s, hits, i);
  }

  lemma {:induction false} PassedPrefix(times: seq<int>, more: seq<int>, interval: int, limit: int, n: nat, from: int, to: int)
    requires n <= |times|
    ensures PassedIn(times + more, interval, limit, n, from, to) == PassedIn(times, interval, limit, n, from, to)
  {
    if n > 0 {
      PassedPrefix(times, more, interval, limit, n - 1, from, to);
      OpenerPrefix(times, more, interval, n - 1);
    }
  }

  /** The last of the first `n` requests adds to both counts alike. */
  lemma LastMatches(c: Config, s: Store, hits: seq<Hit>, ip: string, n: nat, from: int, to: int)
    requires Usable(c) && NoClash(hits, ip) && CountKey(ip) !in s && n < |hits| && hits[n].ip == ip
    ensures var (before, times) := (Times(hits[..n], ip), Times(hits[..n + 1], ip));
            var interval := Window(c);
            && times == before + [hits[n].at]
            && PassedIn(times, interval, c.limit, |times|, from, to)
               == PassedIn(before, interval, c.limit, |before|, from, to)
                  + if from <= hits[n].at < to && Admitted(c, s, hits, n) then 1 else 0
  {
    var before, interval := Times(hits[..n], ip), Window(c);
    assert hits[..n + 1][..n] == hits[..n];
    LimiterIsFixedWindow(c, s, hits, n);
    PassedPrefix(before, [hits[n].at], interval, c.limit, |before|, from, to);
  }

  lemma {:induction false} AdmittedMatchesPassed(c: Config, s: Store, hits: seq<Hit>, ip: string, n: nat, from: int, to: int)
    requires Usable(c) && NoClash(hits, ip) && CountKey(ip) !in s && n <= |hits|
    ensures var times := Times(hits[..n], ip);
            AdmittedIn(c, s, hits, ip, n, from, to)
            == PassedIn(times, Window(c), c.limit, |times|, from, to)
  {
    if n > 0 {
      AdmittedMatchesPassed(c, s, hits, ip, n - 1, from, to);
      if hits[n - 1].ip == ip {
        LastMatches(c, s, hits, ip, n - 1, from, to);
      } else {
        assert hits[..n][..n - 1] == hits[..n - 1];
        assert Times(hits[..n], ip) == Times(hits[..n - 1], ip);
      }
    }
  }

  /** What a run admits an address in a span is what the reference passes of its arrivals. */
  lemma RunMatchesReference(c: Config, s: Store, hits: seq<Hit>, ip: string, from: int, to: int)
    requires Usable(c) && NoClash(hits, ip) && CountKey(ip) !in s
    ensures AdmittedIn(c, s, hits, ip, |hits|, from, to)
            == PassedIn(Times(hits, ip), Window(c), c.limit, |Times(hits, ip)|, from, to)
  {
    assert hits[..|hits|] == hits;
    AdmittedMatchesPassed(c, s, hits, ip, |hits|, from, to);
  }

  /** A window admits exactly the smaller of the limit and its requests so far. */
  lemma WindowTotal(c: Config, s: Store, hits: seq<Hit>, ip: string)
    requires Usable(c) && InOrder(hits) && NoClash(hits, ip) && CountKey(ip) !in s && |Times(hits, ip)| > 0
    ensures var times := Times(hits, ip);
            var w := Opener(times, Window(c), |times| - 1);
            AdmittedIn(c, s, hits, ip, |hits|, times[w], times[|times| - 1] + 1) == Min(c.limit, |times| - w)
  {
    var times, interval := Times(hits, ip), Window(c);
    TimesFacts(hits, ip);
    WindowPasses(times, interval, c.limit);
    RunMatchesReference(c, s, hits, ip, times[Opener(times, interval, |times| - 1)], times[|times| - 1] + 1);
  }
}
