/** What the API-key entries mean in terms of the keys configured over time. */
module ApiKeyHistory {
  import opened Prelude
  import opened Encoding
  import opened Redis
  import opened ApiKeys

  // ---------- the reference: the key ring remembered from a history of syncs ----------

  datatype Synced = Synced(key: string, at: int)

  datatype Replaced = Replaced(key: string, at: int)

  datatype Ring = Ring(current: Option<string>, previous: Option<Replaced>)

  /** Re-syncing the current key, or syncing with no key configured, changes nothing. */
  function Remember(history: seq<Synced>): Ring {
    if |history| == 0 then Ring(None, None)
    else
      After(Remember(history[..|history| - 1]), history[|history| - 1])
  }

  function After(ring: Ring, last: Synced): Ring {
    if last.key == "" || ring.current == Some(last.key) then ring
    else if ring.current.None? then Ring(Some(last.key), None)
    else Ring(Some(last.key), Some(Replaced(ring.current.value, last.at)))
  }

  /** The current key, and the key it directly replaced while no more than a day has gone by
      since the second the replacement happened in. */
  predicate Accepts(ring: Ring, key: string, now: int) {
    || ring.current == Some(key)
    || (&& ring.previous.Some?
        && ring.previous.value.key == key
        && now - ring.previous.value.at / 1000 * 1000 <= 86_400_000)
  }

  function KeysOf(history: seq<Synced>): set<string> {
    set e | e in history :: e.key
  }

  function AfterSyncs(codec: Codec, s: Store, history: seq<Synced>): Store {
    if |history| == 0 then s
    else
      var before := AfterSyncs(codec, s, history[..|history| - 1]);
      match ApiKeys.Sync(codec, before, history[|history| - 1].key, history[|history| - 1].at)
      case Ok(after) => after
      case Err(_) => before
  }

  // ---------- the store refines the ring ----------

  ghost predicate Unkeyed(s: Store) {
    CURRENT_KEY !in s && OLD_KEY !in s && ROTATION_KEY !in s
  }

  /** The three entries hold exactly the ring. */
  ghost predicate Holds(codec: Codec, s: Store, ring: Ring) {
    && (ring.current.None? ==> ring.previous.None? && Unkeyed(s))
    && (ring.current.Some? ==>
          && ring.current.value != ""
          && CURRENT_KEY in s && s[CURRENT_KEY] == Entry(HashKey(codec, ring.current.value), None)
          && ROTATION_KEY in s && s[ROTATION_KEY].deadline.None?)
    && (ring.previous.None? ==> OLD_KEY !in s)
    && (ring.previous.Some? ==>
          && ring.previous.value.key != ""
          && ring.current != Some(ring.previous.value.key)
          && OLD_KEY in s
          && s[OLD_KEY] == Entry(HashKey(codec, ring.previous.value.key), Some(ring.previous.value.at + 86_400_000))
          && ROTATION_KEY in s
          && s[ROTATION_KEY].value == codec.stamp(ring.previous.value.at))
  }

  lemma HashesDiffer(codec: Codec, keys: set<string>, a: string, b: string)
    requires CollisionFree(codec.sha256, keys) && a in keys && b in keys
    ensures HashKey(codec, a) == HashKey(codec, b) <==> a == b
  {
    HexRoundTrip(codec.sha256(a));
    HexRoundTrip(codec.sha256(b));
  }

  lemma {:induction false} RingIsFromHistory(history: seq<Synced>)
    ensures var ring := Remember(history);
            && (ring.current.Some? ==> ring.current.value in KeysOf(history))
            && (ring.previous.Some? ==> ring.previous.value.key in KeysOf(history))
  {
    if |history| > 0 {
      var front := history[..|history| - 1];
      RingIsFromHistory(front);
      assert forall e :: e in front ==> e in history;
      assert history[|history| - 1] in history;
    }
  }

  /** One sync takes the store along with the ring. */
  lemma SyncHoldsRing(codec: Codec, before: Store, ring: Ring, last: Synced)
    requires Holds(codec, before, ring)
    requires ring.current.Some? ==> (HashKey(codec, ring.current.value) == HashKey(codec, last.key) <==> ring.current.value == last.key)
    ensures var r := ApiKeys.Sync(codec, before, last.key, last.at);
            Holds(codec, if r.Ok? then r.value else before, After(ring, last))
  {
  }

  lemma {:induction false} StoreHoldsRing(codec: Codec, s: Store, history: seq<Synced>)
    requires Sound(codec) && CollisionFree(codec.sha256, KeysOf(history)) && Unkeyed(s)
    ensures Holds(codec, AfterSyncs(codec, s, history), Remember(history))
  {
    if |history| > 0 {
      var front, last := history[..|history| - 1], history[|history| - 1];
      assert KeysOf(front) <= KeysOf(history) && last.key in KeysOf(history) by {
        assert forall e :: e in front ==> e in history;
        assert last in history;
      }
      StoreHoldsRing(codec, s, front);
      RingIsFromHistory(front);
      var ring := Remember(front);
      if ring.current.Some? {
        HashesDiffer(codec, KeysOf(history), ring.current.value, last.key);
      }
      SyncHoldsRing(codec, AfterSyncs(codec, s, front), ring, last);
    }
  }

  /** After any syncs from a store without keys, the keys accepted are exactly the ring's. */
  lemma AcceptedKeysAreTheRing(codec: Codec, s: Store, history: seq<Synced>, key: string, now: int)
    requires Sound(codec) && CollisionFree(codec.sha256, KeysOf(history) + {key}) && Unkeyed(s)
    ensures IsValid(codec, AfterSyncs(codec, s, history), key, now) == Ok(Accepts(Remember(history), key, now))
  {
    var keys := KeysOf(history) + {key};
    StoreHoldsRing(codec, s, history);
    RingIsFromHistory(history);
    var ring := Remember(history);
    if ring.current.Some? {
      HashesDiffer(codec, keys, ring.current.value, key);
    }
    if ring.previous.Some? {
      HashesDiffer(codec, keys, ring.previous.value.key, key);
    }
  }

  /** Of any three keys accepted at one moment two are the same. */
  lemma AtMostTwoKeys(codec: Codec, s: Store, history: seq<Synced>, a: string, b: string, c: string, now: int)
    requires Sound(codec) && CollisionFree(codec.sha256, KeysOf(history) + {a, b, c}) && Unkeyed(s)
    requires var after := AfterSyncs(codec, s, history);
             IsValid(codec, after, a, now) == IsValid(codec, after, b, now) == IsValid(codec, after, c, now) == Ok(true)
    ensures a == b || b == c || a == c
  {
    AcceptedKeysAreTheRing(codec, s, history, a, now);
    AcceptedKeysAreTheRing(codec, s, history, b, now);
    AcceptedKeysAreTheRing(codec, s, history, c, now);
  }

  /** A key replaced at some moment stays good until a day less one second later at the least,
      and a day later at the most, if nothing else is rotated in. */
  lemma GraceWindow(codec: Codec, s: Store, history: seq<Synced>, newKey: string, at: int, now: int)
    requires Sound(codec) && CollisionFree(codec.sha256, KeysOf(history) + {newKey}) && Unkeyed(s)
    requires newKey != "" && Remember(history).current.Some? && Remember(history).current != Some(newKey)
    ensures var replaced := Remember(history).current.value;
            var verdict := IsValid(codec, AfterSyncs(codec, s, history + [Synced(newKey, at)]), replaced, now);
            && (now <= at + 86_400_000 - 1000 ==> verdict == Ok(true))
            && (now > at + 86_400_000 ==> verdict == Ok(false))
            && (verdict == Ok(true) <==> now <= at / 1000 * 1000 + 86_400_000)
  {
    var longer, replaced := history + [Synced(newKey, at)], Remember(history).current.value;
    assert longer[..|longer| - 1] == history;
    RingIsFromHistory(history);
    assert KeysOf(longer) + {replaced} == KeysOf(history) + {newKey} by {
      assert forall e :: e in longer <==> e in history || e == Synced(newKey, at);
      assert Synced(newKey, at) in longer;
    }
    AcceptedKeysAreTheRing(codec, s, longer, replaced, now);
  }

  // ---------- keys lost from Redis ----------

  datatype Event = Configured(key: string, at: int) | Loss(entry: string, at: int)

  function Step(codec: Codec, s: Store, e: Event): Store {
    match e
    case Loss(entry, _) => s - {entry}
    case Configured(key, at) => match ApiKeys.Sync(codec, s, key, at) case Ok(after) => after case Err(_) => s
  }

  function AfterEvents(codec: Codec, s: Store, events: seq<Event>): Store {
    if |events| == 0 then s
    else Step(codec, AfterEvents(codec, s, events[..|events| - 1]), events[|events| - 1])
  }

  /** The last moment at which this digest was still the current key's. */
  function LastCurrent(codec: Codec, s: Store, events: seq<Event>, hashed: string): Option<int> {
    if |events| == 0 then None
    else
      var front, last := events[..|events| - 1], events[|events| - 1];
      if Get(AfterEvents(codec, s, front), CURRENT_KEY, last.at) == Some(hashed) then Some(last.at)
      else LastCurrent(codec, s, front, hashed)
  }

  ghost predicate EventsInOrder(events: seq<Event>) {
    forall i, j :: 0 <= i <= j < |events| ==> events[i].at <= events[j].at
  }

  lemma {:induction false} LastCurrentIsPast(codec: Codec, s: Store, events: seq<Event>, hashed: string)
    requires EventsInOrder(events) && LastCurrent(codec, s, events, hashed).Some?
    ensures |events| > 0 && LastCurrent(codec, s, events, hashed).value <= events[|events| - 1].at
  {
    var n := |events| - 1;
    if Get(AfterEvents(codec, s, events[..n]), CURRENT_KEY, events[n].at) != Some(hashed) {
      LastCurrentIsPast(codec, s, events[..n], hashed);
    }
  }

  lemma {:induction false} OldEntryIsBounded(codec: Codec, s: Store, events: seq<Event>)
    requires EventsInOrder(events) && Unkeyed(s)
    ensures var after := AfterEvents(codec, s, events);
            OLD_KEY in after ==>
              var last := LastCurrent(codec, s, events, after[OLD_KEY].value);
              last.Some? && after[OLD_KEY].deadline.Some? && after[OLD_KEY].deadline.value <= last.value + 86_400_000
  {
    if |events| > 0 {
      var n := |events| - 1;
      OldEntryIsBounded(codec, s, events[..n]);
      var before := AfterEvents(codec, s, events[..n]);
      if OLD_KEY in before {
        LastCurrentIsPast(codec, s, events[..n], before[OLD_KEY].value);
      }
    }
  }

  /** Whatever entries are lost and whenever keys are synced again, no key is accepted more than
      a day after the last moment it was the current one. */
  lemma NeverLate(codec: Codec, s: Store, events: seq<Event>, key: string, now: int)
    requires EventsInOrder(events) && Unkeyed(s)
    requires IsValid(codec, AfterEvents(codec, s, events), key, now) == Ok(true)
    ensures || Get(AfterEvents(codec, s, events), CURRENT_KEY, now) == Some(HashKey(codec, key))
            || (&& LastCurrent(codec, s, events, HashKey(codec, key)).Some?
                && now <= LastCurrent(codec, s, events, HashKey(codec, key)).value + 86_400_000)
  {
    OldEntryIsBounded(codec, s, events);
  }

  /** The digest of a replaced key is in the store, and not also the current one. */
  ghost predicate IsReplaced(codec: Codec, s: Store, key: string, now: int) {
    && key != "" && Get(s, "apikey:old", now) == Some(Hex(codec.sha256(key)))
    && Get(s, "apikey:current", now) != Some(Hex(codec.sha256(key)))
  }

  /** Every answer of a check, on any store. */
  lemma CheckedExactly(codec: Codec, s: Store, key: string, now: int)
    ensures var (r, rotation) := (IsValid(codec, s, key, now), Get(s, "apikey:rotation_time", now));
            && (r == Err(NoRotationTime) <==> IsReplaced(codec, s, key, now) && rotation.None?)
            && (r == Err(BadRotationTime) <==>
                  IsReplaced(codec, s, key, now) && rotation.Some? && codec.parseStamp(rotation.value).None?)
            && (r == Ok(true) <==>
                  || (key != "" && Get(s, "apikey:current", now) == Some(Hex(codec.sha256(key))))
                  || (&& IsReplaced(codec, s, key, now) && rotation.Some? && codec.parseStamp(rotation.value).Some?
                      && now <= codec.parseStamp(rotation.value).value + 86_400_000))
            && (r.Err? ==> r.error == NoRotationTime || r.error == BadRotationTime)
  {
  }

  /** A sync fails for the empty key only, and the store is then left alone. */
  lemma SyncedExactly(codec: Codec, s: Store, key: string, now: int)
    ensures ApiKeys.Sync(codec, s, key, now) == Err(EmptyKey) <==> key == ""
    ensures ApiKeys.Sync(codec, s, key, now).Ok? <==> key != ""
    ensures Step(codec, s, Configured("", now)) == s
  {
  }

  /** When the rotation time is lost, a check of the replaced key is an error, not a verdict, and the
      current key goes on being accepted. */
  lemma LostRotationTime(codec: Codec, key: string, newKey: string, at: int, now: int)
    requires Sound(codec) && key != "" && newKey != "" && codec.sha256(newKey) != codec.sha256(key)
    requires 0 <= at <= now <= at + 86_400_000
    ensures var s := AfterEvents(codec, map[], [Configured(key, 0), Configured(newKey, at), Loss("apikey:rotation_time", at)]);
            IsValid(codec, s, key, now) == Err(NoRotationTime) && IsValid(codec, s, newKey, now) == Ok(true)
  {
    var events := [Configured(key, 0), Configured(newKey, at), Loss("apikey:rotation_time", at)];
    assert events[..2] == [Configured(key, 0), Configured(newKey, at)] && events[..2][..1] == [Configured(key, 0)];
    assert events[..2][..1][..0] == [];
    HexRoundTrip(codec.sha256(key));
    HexRoundTrip(codec.sha256(newKey));
    assert AfterEvents(codec, map[], events[..2][..1]) == Step(codec, map[], Configured(key, 0));
    assert AfterEvents(codec, map[], events[..2]) == Step(codec, Step(codec, map[], Configured(key, 0)), Configured(newKey, at));
  }

  // ---------- a check running beside a rotation ----------

  /** Whether the rotation time stored before a rotation still counts as recent. */
  predicate PriorRotationRecent(codec: Codec, s: Store, now: int) {
    var prior := Get(s, ROTATION_KEY, now);
    prior.Some? && codec.parseStamp(prior.value).Some? && now - codec.parseStamp(prior.value).value <= 86_400_000
  }

  /** The store once some of the three writes rotating one key into another have been made. */
  function Between(codec: Codec, s: Store, key: string, newKey: string, rotatedAt: int, writes: nat): Store
    requires writes <= 3
  {
    Rotation(codec, s, HashKey(codec, key), HashKey(codec, newKey), rotatedAt, writes)
  }

  /** A check of the key that is current when it begins makes its three reads after r1 <= r2 <= r3
      of the writes of one rotation. It is refused in exactly one arrangement: the new current key
      is already written, the new rotation time is not, and the old rotation time is stale. */
  lemma CheckBesideRotation(codec: Codec, s: Store, key: string, newKey: string, rotatedAt: int,
                            r1: nat, r2: nat, r3: nat, began: int, t1: int, t2: int, t3: int)
    requires Sound(codec) && key != "" && newKey != "" && codec.sha256(newKey) != codec.sha256(key)
    requires CURRENT_KEY in s && s[CURRENT_KEY] == Entry(HashKey(codec, key), None)
    requires r1 <= r2 <= r3 <= 3
    requires began <= rotatedAt && t1 <= t2 <= t3 && t3 - began <= 86_400_000 - 1000
    ensures var (s1, s2, s3) := (Between(codec, s, key, newKey, rotatedAt, r1), Between(codec, s, key, newKey, rotatedAt, r2),
                                 Between(codec, s, key, newKey, rotatedAt, r3));
            Verdict(codec, key, Get(s1, CURRENT_KEY, t1), Get(s2, OLD_KEY, t2), Get(s3, ROTATION_KEY, t3), t3) == Ok(true)
            <==> !(2 <= r1 && r3 == 2 && !PriorRotationRecent(codec, s, t3))
  {
    HexRoundTrip(codec.sha256(key));
    HexRoundTrip(codec.sha256(newKey));
  }

  /** With the three writes taken as one step no check of a key current at its start is refused. */
  lemma AtomicRotationNeverRefuses(codec: Codec, s: Store, key: string, newKey: string, rotatedAt: int,
                                   seen1: bool, seen2: bool, seen3: bool, began: int, t1: int, t2: int, t3: int)
    requires Sound(codec) && key != "" && newKey != "" && codec.sha256(newKey) != codec.sha256(key)
    requires CURRENT_KEY in s && s[CURRENT_KEY] == Entry(HashKey(codec, key), None)
    requires (seen1 ==> seen2) && (seen2 ==> seen3)
    requires began <= rotatedAt && t1 <= t2 <= t3 && t3 - began <= 86_400_000 - 1000
    ensures var after := ApiKeys.Sync(codec, s, newKey, rotatedAt);
            && after.Ok?
            && Verdict(codec, key, Get(if seen1 then after.value else s, CURRENT_KEY, t1),
                       Get(if seen2 then after.value else s, OLD_KEY, t2),
                       Get(if seen3 then after.value else s, ROTATION_KEY, t3), t3) == Ok(true)
  {
    HexRoundTrip(codec.sha256(key));
    HexRoundTrip(codec.sha256(newKey));
    CheckBesideRotation(codec, s, key, newKey, rotatedAt,
                        if seen1 then 3 else 0, if seen2 then 3 else 0, if seen3 then 3 else 0, began, t1, t2, t3);
  }

  /** The refused arrangement is reachable: a first key, replaced more than a day later, and a check
      of it that begins before the rotation and reads after the second of its three writes. */
  lemma RefusedBesideRotation(codec: Codec, key: string, newKey: string)
    requires Sound(codec) && key != "" && newKey != "" && codec.sha256(newKey) != codec.sha256(key)
    ensures var s := AfterSyncs(codec, map[], [Synced(key, 0)]);
            var at := 86_400_000 + 1000;
            var between := Between(codec, s, key, newKey, at, 2);
            && IsValid(codec, s, key, at) == Ok(true)
            && IsValid(codec, between, key, at) == Ok(false)
            && IsValid(codec, Between(codec, s, key, newKey, at, 3), key, at) == Ok(true)
  {
    var first := [Synced(key, 0)];
    var s := AfterSyncs(codec, map[], first);
    assert first[..0] == [];
    assert AfterSyncs(codec, map[], []) == map[];
    HexRoundTrip(codec.sha256(key));
    HexRoundTrip(codec.sha256(newKey));
    assert s[ROTATION_KEY] == Entry(codec.stamp(0), None);
    assert codec.parseStamp(codec.stamp(0)) == Some(0);
  }
}
