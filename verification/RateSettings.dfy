/** The limiter in the terms of its configuration: windows in the configured milliseconds, and the
    settings under which it does not count at all. */
module RateSettings {
  import opened Decimal
  import opened Redis
  import opened RateLimiter
  import opened FixedWindow

  // ---------- a window in milliseconds ----------

  /** No arrival came in the configured interval before this one, so it opens a window. */
  predicate AfterQuiet(c: Config, times: seq<int>, j: nat)
    requires j < |times|
  {
    j == 0 || times[j - 1] + c.interval < times[j]
  }

  lemma QuietOpens(c: Config, times: seq<int>, j: nat)
    requires Usable(c) && Ascending(times) && j < |times| && AfterQuiet(c, times, j)
    ensures Opener(times, Window(c), j) == j
  {
  }

  lemma {:induction false} StaysInWindow(times: seq<int>, interval: int, j: nat, i: nat)
    requires Ascending(times) && interval > 0 && j <= i < |times|
    requires Opener(times, interval, j) == j && times[i] <= times[j] + interval
    ensures Opener(times, interval, i) == j
  {
    if j < i {
      StaysInWindow(times, interval, j, i - 1);
    }
  }

  /** Until the configured interval from arrival `j` on is over, less a second, a request is admitted
      exactly while fewer than `limit` came since; the first one after the interval is admitted. */
  predicate DecidedByRoom(c: Config, times: seq<int>, j: nat, now: int, admitted: bool)
    requires j < |times|
  {
    && (now <= times[j] + c.interval - 1000 ==> (admitted <==> |times| - j < c.limit))
    && (times[|times| - 1] <= times[j] + c.interval - 1000 && times[j] + c.interval < now ==> admitted)
  }

  /** The reference on one more arrival, in the configured milliseconds. */
  lemma PassesWhileRoom(c: Config, times: seq<int>, j: nat, now: int)
    requires Usable(c) && Ascending(times + [now]) && j < |times| && AfterQuiet(c, times, j)
    ensures DecidedByRoom(c, times, j, now, Passes(times + [now], Window(c), c.limit, |times|))
  {
    var all := times + [now];
    assert forall i :: 0 <= i < |times| ==> all[i] == times[i];
    assert AfterQuiet(c, all, j);
    QuietOpens(c, all, j);
    if now <= times[j] + c.interval - 1000 {
      StaysInWindow(all, Window(c), j, |times|);
    } else if times[|times| - 1] <= times[j] + c.interval - 1000 && times[j] + c.interval < now {
      StaysInWindow(all, Window(c), j, |times| - 1);
    }
  }

  lemma TimesInOrder(hits: seq<Hit>, ip: string, now: int)
    requires InOrder(hits + [Hit(now, ip)])
    ensures Ascending(Times(hits, ip) + [now])
  {
    var all := hits + [Hit(now, ip)];
    assert all[..|hits|] == hits;
    TimesFacts(all, ip);
  }

  /** An arrival after the quiet opens a window for the configured interval, less than a second of
      it lost. */
  lemma ConfiguredWindow(c: Config, s: Store, hits: seq<Hit>, ip: string, j: nat, now: int)
    requires Usable(c) && InOrder(hits + [Hit(now, ip)]) && NoClash(hits, ip) && CountKey(ip) !in s
    requires j < |Times(hits, ip)| && AfterQuiet(c, Times(hits, ip), j)
    ensures DecidedByRoom(c, Times(hits, ip), j, now, Handle(c, After(c, s, hits), ip, now).1)
  {
    TimesInOrder(hits, ip, now);
    DecisionAfterRun(c, s, hits, ip, Times(hits, ip), now);
    PassesWhileRoom(c, Times(hits, ip), j, now);
  }

  // ---------- settings that switch the limiter off or shut it ----------

  ghost predicate NoRateKeys(s: Store) {
    forall key :: key in s ==> !(KEY_PREFIX <= key)
  }

  lemma ShortIntervalStep(c: Config, s: Store, ip: string, now: int)
    requires 1 <= c.limit && c.interval < 1000 && NoRateKeys(s)
    ensures NoRateKeys(Handle(c, s, ip, now).0) && Handle(c, s, ip, now).1
  {
  }

  lemma {:induction false} ShortIntervalKeepsNoKeys(c: Config, s: Store, hits: seq<Hit>)
    requires 1 <= c.limit && c.interval < 1000 && NoRateKeys(s)
    ensures NoRateKeys(After(c, s, hits))
  {
    if |hits| > 0 {
      var n := |hits| - 1;
      ShortIntervalKeepsNoKeys(c, s, hits[..n]);
      ShortIntervalStep(c, After(c, s, hits[..n]), hits[n].ip, hits[n].at);
    }
  }

  /** With an interval under a second a counter is deleted as soon as it is set: every request is admitted. */
  lemma ShortIntervalAdmitsAll(c: Config, s: Store, hits: seq<Hit>, i: nat)
    requires 1 <= c.limit && c.interval < 1000 && NoRateKeys(s) && i < |hits|
    ensures Admitted(c, s, hits, i)
  {
    ShortIntervalKeepsNoKeys(c, s, hits[..i]);
    ShortIntervalStep(c, After(c, s, hits[..i]), hits[i].ip, hits[i].at);
  }

  ghost predicate OnlyOnes(s: Store) {
    forall key :: key in s && KEY_PREFIX <= key ==> s[key].value == "1"
  }

  lemma NoLimitStep(c: Config, s: Store, ip: string, now: int)
    requires c.limit <= 0 && c.blockTime >= 1000 && OnlyOnes(s)
    ensures OnlyOnes(Handle(c, s, ip, now).0) && !Handle(c, s, ip, now).1
  {
    WholeSecondsExactly(c.blockTime);
    assert FormatInt(1) == "1";
    IntRoundTrip(1);
    assert KEY_PREFIX <= CountKey(ip);
  }

  lemma {:induction false} NoLimitKeepsOnes(c: Config, s: Store, hits: seq<Hit>)
    requires c.limit <= 0 && c.blockTime >= 1000 && OnlyOnes(s)
    ensures OnlyOnes(After(c, s, hits))
  {
    if |hits| > 0 {
      var n := |hits| - 1;
      NoLimitKeepsOnes(c, s, hits[..n]);
      NoLimitStep(c, After(c, s, hits[..n]), hits[n].ip, hits[n].at);
    }
  }

  /** With a limit under one and a block time of a second or more every request is turned away. */
  lemma NoLimitAdmitsNone(c: Config, s: Store, hits: seq<Hit>, i: nat)
    requires c.limit <= 0 && c.blockTime >= 1000 && NoRateKeys(s) && i < |hits|
    ensures !Admitted(c, s, hits, i)
  {
    NoLimitKeepsOnes(c, s, hits[..i]);
    NoLimitStep(c, After(c, s, hits[..i]), hits[i].ip, hits[i].at);
  }

  /** A counter that is no number, or the largest one, cannot be increased: the script fails, the
      request is admitted and nothing is written. */
  lemma StuckCounterAdmits(c: Config, s: Store, ip: string, now: int)
    requires 1 <= c.limit && Live(s, CountKey(ip), now)
    requires var n := ParseInt(s[CountKey(ip)].value); n.None? || (n.value == MAX_INT64 < c.limit)
    ensures Handle(c, s, ip, now) == (s, true)
  {
  }
}
