/** How many requests of one address the limiter can admit, and exactly when the promises about
    that number are kept. */
module RateBounds {
  import opened Prelude
  import opened Decimal
  import opened Redis
  import opened RateLimiter
  import opened FixedWindow

  // ---------- counting in whole intervals ----------

  /** The span's length in whole intervals, rounded up. */
  function Intervals(length: nat, interval: int): nat
    requires interval > 0
  {
    (length + interval - 1) / interval
  }

  /** `limit` for every whole interval in a gap: limit * (gap / interval), in steps. */
  function Allowance(limit: nat, interval: int, gap: int): nat
    requires interval > 0
    decreases gap
  {
    if gap < interval then 0 else limit + Allowance(limit, interval, gap - interval)
  }

  lemma {:induction false} AllowanceGrows(limit: nat, interval: int, small: int, large: int)
    requires interval > 0 && small <= large
    ensures Allowance(limit, interval, small) <= Allowance(limit, interval, large)
    decreases large
  {
    if interval <= small {
      AllowanceGrows(limit, interval, small - interval, large - interval);
    }
  }

  lemma Scale(k: int, a: int, b: int)
    requires k >= 0 && a <= b
    ensures k * a <= k * b
  {
  }

  lemma QuotientIs(x: int, d: int, q: int)
    requires d > 0 && d * q <= x < d * q + d
    ensures x / d == q
  {
    var p := x / d;
    assert d * p <= x < d * p + d;
    if p < q {
      Scale(d, p + 1, q);
    } else if q < p {
      Scale(d, q + 1, p);
    }
  }

  lemma {:induction false} AllowanceIsProduct(limit: nat, interval: int, gap: nat)
    requires interval > 0
    ensures Allowance(limit, interval, gap) == limit * (gap / interval)
    decreases gap
  {
    if gap < interval {
      QuotientIs(gap, interval, 0);
    } else {
      AllowanceIsProduct(limit, interval, gap - interval);
      OneMoreInterval(interval, gap);
      Distributes(limit, (gap - interval) / interval);
    }
  }

  lemma OneMoreInterval(interval: int, gap: int)
    requires 0 < interval <= gap
    ensures gap / interval == (gap - interval) / interval + 1
  {
    var q := (gap - interval) / interval;
    Distributes(interval, q);
    QuotientIs(gap, interval, q + 1);
  }

  lemma Distributes(k: int, q: int)
    ensures k * (q + 1) == k * q + k
  {
  }

  function Bound(c: Config, length: nat): int
    requires c.interval >= 1000
  {
    c.limit * (Intervals(length, Window(c)) + 1) - 1
  }

  // ---------- the invariant of a counter ----------

  /** A counter reading `k` whose window counts from `start`: requests admitted since `from` are
      at most limit - 1 from a window opened before, `limit` for each full window since, and `k`. */
  ghost predicate Charged(c: Config, s: Store, ip: string, from: int, admitted: int, start: int, k: int)
    requires c.limit >= 0 && c.interval >= 1000
  {
    var interval := Window(c);
    && CountKey(ip) in s && s[CountKey(ip)].value == FormatInt(k) && 1 <= k <= c.limit
    && s[CountKey(ip)].deadline.Some? && start + interval <= s[CountKey(ip)].deadline.value
    && (start < from ==> admitted <= k - 1)
    && (from <= start ==> admitted <= c.limit - 1 + Allowance(c.limit, interval, start - from) + k)
  }

  ghost predicate Bounded(c: Config, s: Store, ip: string, from: int, admitted: int, now: int)
    requires c.limit >= 0 && c.interval >= 1000
  {
    if CountKey(ip) !in s then admitted <= 0
    else exists start, k :: start <= now && Charged(c, s, ip, from, admitted, start, k)
  }

  lemma CountOfCharged(c: Config, s: Store, ip: string, now: int, k: int)
    requires Usable(c) && CountKey(ip) in s && s[CountKey(ip)].value == FormatInt(k) && 1 <= k <= c.limit
    ensures Count(s, CountKey(ip), now) == if Live(s, CountKey(ip), now) then k else 0
  {
    IntRoundTrip(k);
  }

  /** A window that counts from `now`, on a counter that has run out. */
  lemma NewWindow(c: Config, s: Store, s': Store, ip: string, from: int, admitted: int, more: int, before: int, now: int)
    requires Usable(c) && before <= now && 0 <= more <= 1
    requires Bounded(c, s, ip, from, admitted, before) && !Live(s, CountKey(ip), now)
    requires now < from ==> admitted + more <= 0
    requires CountKey(ip) in s' && s'[CountKey(ip)].value == "1" && s'[CountKey(ip)].deadline.Some?
    requires now + Window(c) <= s'[CountKey(ip)].deadline.value
    ensures Bounded(c, s', ip, from, admitted + more, now)
  {
    var interval := Window(c);
    if from <= now && CountKey(ip) in s {
      var start, k :| start <= before && Charged(c, s, ip, from, admitted, start, k);
      if from <= start {
        AllowanceGrows(c.limit, interval, start - from + interval, now - from);
      }
    }
    assert FormatInt(1) == "1";
    assert Charged(c, s', ip, from, admitted + more, now, 1);
  }

  lemma OwnHitBounded(c: Config, s: Store, s': Store, ip: string, from: int, admitted: nat, before: int, now: int, admitted': int)
    requires Usable(c) && before <= now && Bounded(c, s, ip, from, admitted, before) && (now < from ==> admitted == 0)
    requires s' == Handle(c, s, ip, now).0
    requires admitted' == admitted + if from <= now && Handle(c, s, ip, now).1 then 1 else 0
    ensures Bounded(c, s', ip, from, admitted', now)
  {
    if Live(s, CountKey(ip), now) {
      var start, k :| start <= before && Charged(c, s, ip, from, admitted, start, k);
      CountOfCharged(c, s, ip, now, k);
      HandleCases(c, s, ip, now);
      assert Charged(c, s', ip, from, admitted', start, if k < c.limit then k + 1 else k);
    } else {
      HandleCases(c, s, ip, now);
      NewWindow(c, s, s', ip, from, admitted, admitted' - admitted, before, now);
    }
  }

  // ---------- an address whose block key is another's counter ----------

  /** When a request over the limit of one address is turned away, the counter of the address
      spelled with ":block" after it is set to 1 for the block time, unless that counter runs. */
  lemma BlockKeyIsCounter(c: Config, s: Store, ip: string, now: int)
    requires Usable(c)
    ensures var (after, other) := (Handle(c, s, ip, now).0, CountKey(ip + BLOCK_SUFFIX));
            if Count(s, CountKey(ip), now) >= c.limit && !Live(s, other, now)
            then other in after && after[other] == Entry("1", Some(now + BlockSpan(c)))
            else (other in after <==> other in s) && (other in s ==> after[other] == s[other])
  {
    WholeSecondsExactly(c.blockTime);
    assert CountKey(ip + BLOCK_SUFFIX) == BlockKey(CountKey(ip));
    assert |BlockKey(CountKey(ip))| == |CountKey(ip)| + 6;
  }

  /** A block key counts as a request of the other address. That is harmless if the block time
      fills an interval, or if the one request it counts is all a window admits. */
  ghost predicate BlockCountsAsWindow(c: Config) {
    BlockSpan(c) >= Window(c) || c.limit == 1
  }

  lemma ClashBounded(c: Config, s: Store, s': Store, other: string, ip: string, from: int, admitted: nat, before: int, now: int)
    requires Usable(c) && BlockCountsAsWindow(c) && before <= now && ip == other + BLOCK_SUFFIX
    requires Bounded(c, s, ip, from, admitted, before) && (now < from ==> admitted == 0)
    requires s' == Handle(c, s, other, now).0
    ensures Bounded(c, s', ip, from, admitted, now)
  {
    var interval := Window(c);
    BlockKeyIsCounter(c, s, other, now);
    if Count(s, CountKey(other), now) >= c.limit && !Live(s, CountKey(ip), now) {
      if BlockSpan(c) >= Window(c) {
        NewWindow(c, s, s', ip, from, admitted, 0, before, now);
      } else {
        assert FormatInt(1) == "1";
        var start := now + BlockSpan(c) - interval;
        if CountKey(ip) in s {
          var earlier, k :| earlier <= before && Charged(c, s, ip, from, admitted, earlier, k);
          assert Charged(c, s', ip, from, admitted, earlier, 1);
        } else {
          assert Charged(c, s', ip, from, admitted, start, 1);
        }
      }
    } else {
      SameCounterBounded(c, s, s', ip, from, admitted, before, now);
    }
  }

  lemma SameCounterBounded(c: Config, s: Store, s': Store, ip: string, from: int, admitted: nat, before: int, now: int)
    requires Usable(c) && Bounded(c, s, ip, from, admitted, before) && before <= now
    requires CountKey(ip) in s' <==> CountKey(ip) in s
    requires CountKey(ip) in s ==> s'[CountKey(ip)] == s[CountKey(ip)]
    ensures Bounded(c, s', ip, from, admitted, now)
  {
    if CountKey(ip) in s {
      var start, k :| start <= before && Charged(c, s, ip, from, admitted, start, k);
      assert Charged(c, s', ip, from, admitted, start, k);
    }
  }

  // ---------- the rate bound ----------

  lemma {:induction false} NoneBefore(c: Config, s: Store, hits: seq<Hit>, ip: string, n: nat, from: int, to: int)
    requires n <= |hits| && forall k :: 0 <= k < n ==> hits[k].at < from
    ensures AdmittedIn(c, s, hits, ip, n, from, to) == 0
  {
    if n > 0 {
      NoneBefore(c, s, hits, ip, n - 1, from, to);
    }
  }

  lemma HitBounded(c: Config, s: Store, s': Store, h: Hit, ip: string, from: int, admitted: nat, before: int, admitted': int)
    requires Usable(c) && before <= h.at && Bounded(c, s, ip, from, admitted, before)
    requires h.ip + BLOCK_SUFFIX == ip ==> BlockCountsAsWindow(c)
    requires s' == Handle(c, s, h.ip, h.at).0
    requires admitted' == admitted + if h.ip == ip && from <= h.at && Handle(c, s, ip, h.at).1 then 1 else 0
    requires h.at < from ==> admitted == 0
    ensures Bounded(c, s', ip, from, admitted', h.at)
  {
    if h.ip == ip {
      OwnHitBounded(c, s, s', ip, from, admitted, before, h.at, admitted');
    } else if h.ip + BLOCK_SUFFIX == ip {
      ClashBounded(c, s, s', h.ip, ip, from, admitted, before, h.at);
    } else {
      KeysApart(ip, h.ip);
      HandleFrame(c, s, h.ip, h.at, CountKey(ip));
      SameCounterBounded(c, s, s', ip, from, admitted, before, h.at);
    }
  }

  lemma LastAdds(c: Config, s: Store, hits: seq<Hit>, ip: string, n: nat, from: int, to: int)
    requires n < |hits| && hits[n].at < to
    ensures AdmittedIn(c, s, hits, ip, n + 1, from, to) == AdmittedIn(c, s, hits, ip, n, from, to) +
              if hits[n].ip == ip && from <= hits[n].at && Handle(c, After(c, s, hits[..n]), ip, hits[n].at).1 then 1 else 0
  {
    assert hits[n].ip == ip ==> Admitted(c, s, hits, n) == Handle(c, After(c, s, hits[..n]), ip, hits[n].at).1;
  }

  lemma AfterNext(c: Config, s: Store, hits: seq<Hit>, n: nat)
    requires n < |hits|
    ensures After(c, s, hits[..n + 1]) == Handle(c, After(c, s, hits[..n]), hits[n].ip, hits[n].at).0
  {
    assert hits[..n + 1][..n] == hits[..n];
  }

  /** The counter and the admitted requests after `n` requests, the last of them at or before `now`. */
  ghost predicate BoundedUpTo(c: Config, s: Store, hits: seq<Hit>, ip: string, n: nat, from: int, to: int, now: int)
    requires Usable(c) && n <= |hits|
  {
    Bounded(c, After(c, s, hits[..n]), ip, from, AdmittedIn(c, s, hits, ip, n, from, to), now)
  }

  lemma NextBounded(c: Config, s: Store, hits: seq<Hit>, ip: string, n: nat, from: int, to: int, before: int)
    requires Usable(c) && n < |hits| && BoundedUpTo(c, s, hits, ip, n, from, to, before)
    requires before <= hits[n].at < to && (hits[n].ip + BLOCK_SUFFIX == ip ==> BlockCountsAsWindow(c))
    requires hits[n].at < from ==> AdmittedIn(c, s, hits, ip, n, from, to) == 0
    ensures BoundedUpTo(c, s, hits, ip, n + 1, from, to, hits[n].at)
  {
    AfterNext(c, s, hits, n);
    LastAdds(c, s, hits, ip, n, from, to);
    HitBounded(c, After(c, s, hits[..n]), After(c, s, hits[..n + 1]), hits[n], ip, from,
               AdmittedIn(c, s, hits, ip, n, from, to), before, AdmittedIn(c, s, hits, ip, n + 1, from, to));
  }

  /** The counting argument, for a span that the last of the first `n + 1` requests is not past. */
  lemma {:induction false} RunBounded(c: Config, s: Store, hits: seq<Hit>, ip: string, n: nat, from: int, to: int)
    requires Usable(c) && InOrder(hits) && (NoClash(hits, ip) || BlockCountsAsWindow(c)) && CountKey(ip) !in s
    requires n < |hits| && hits[n].at < to
    ensures BoundedUpTo(c, s, hits, ip, n + 1, from, to, hits[n].at)
  {
    var before := hits[if n > 0 then n - 1 else 0].at;
    if n > 0 {
      RunBounded(c, s, hits, ip, n - 1, from, to);
    } else {
      assert BoundedUpTo(c, s, hits, ip, 0, from, to, before);
    }
    if hits[n].at < from {
      NoneBefore(c, s, hits, ip, n, from, to);
    }
    assert hits[n] in hits;
    NextBounded(c, s, hits, ip, n, from, to, before);
  }

  lemma BoundIsAllowance(c: Config, length: nat)
    requires Usable(c)
    ensures Bound(c, length)
            == c.limit - 1 + Allowance(c.limit, Window(c), length - 1 + Window(c))
  {
    var interval := Window(c);
    var whole := Intervals(length, interval);
    AllowanceIsProduct(c.limit, interval, length - 1 + interval);
    assert c.limit * (whole + 1) == c.limit * whole + c.limit;
  }

  lemma BoundedIsWithin(c: Config, s: Store, ip: string, from: int, length: nat, admitted: nat, now: int)
    requires Usable(c) && Bounded(c, s, ip, from, admitted, now) && now < from + length
    ensures admitted <= Bound(c, length)
  {
    var interval := Window(c);
    BoundIsAllowance(c, length);
    if CountKey(ip) in s {
      var start, k :| start <= now && Charged(c, s, ip, from, admitted, start, k);
      AllowanceGrows(c.limit, interval, start - from, length - 1);
    }
  }

  /** The rate bound: one address gets at most limit * (ceil(L / interval) + 1) - 1 requests
      admitted in any half-open span of length L, whatever the other addresses do if the block
      time is no shorter than the interval, and otherwise if none of them clashes with it. */
  lemma {:induction false} RateBound(c: Config, s: Store, hits: seq<Hit>, ip: string, n: nat, from: int, length: nat)
    requires Usable(c) && InOrder(hits) && (NoClash(hits, ip) || BlockCountsAsWindow(c)) && CountKey(ip) !in s
    requires n <= |hits|
    ensures AdmittedIn(c, s, hits, ip, n, from, from + length) <= Bound(c, length)
  {
    if n == 0 {
      assert CountKey(ip) !in After(c, s, []);
      BoundedIsWithin(c, s, ip, from, length, 0, from - 1);
    } else if hits[n - 1].at < from + length {
      RunBounded(c, s, hits, ip, n - 1, from, from + length);
      BoundedIsWithin(c, After(c, s, hits[..n]), ip, from, length,
                      AdmittedIn(c, s, hits, ip, n, from, from + length), hits[n - 1].at);
    } else {
      RateBound(c, s, hits, ip, n - 1, from, length);
    }
  }
}
