/** The service-to-service API key and its rotation (internal/service/apikey.go). */
module ApiKeys {
  import opened Prelude
  import opened Encoding
  import opened Redis

  const CURRENT_KEY: string := "apikey:current"
  const OLD_KEY: string := "apikey:old"
  const ROTATION_KEY: string := "apikey:rotation_time"
  const DAY: int := 24 * 60 * 60 * 1000

  /** SHA-256, and writing and reading an instant in the RFC 3339 form, as unknown functions. */
  datatype Codec = Codec(sha256: string -> seq<byte>, stamp: int -> string, parseStamp: string -> Option<int>)

  /** Digests have 32 bytes, and a written instant reads back truncated to its second. */
  ghost predicate Sound(codec: Codec) {
    && (forall x :: |codec.sha256(x)| == 32)
    && (forall t :: codec.parseStamp(codec.stamp(t)) == Some(WholeSecond(t)))
  }

  function WholeSecond(t: int): int {
    t / 1000 * 1000
  }

  datatype Error = EmptyKey | NoRotationTime | BadRotationTime

  // ---------- specification ----------

  function HashKey(codec: Codec, key: string): string {
    Hex(codec.sha256(key))
  }

  function Sync(codec: Codec, s: Store, newKey: string, now: int): Result<Store, Error> {
    var hashed := HashKey(codec, newKey);
    if newKey == "" then Err(EmptyKey)
    else match Get(s, CURRENT_KEY, now)
      case None => Ok(s[CURRENT_KEY := Entry(hashed, None)][ROTATION_KEY := Entry(codec.stamp(now), None)])
      case Some(current) => if current == hashed then Ok(s) else Ok(Rotation(codec, s, current, hashed, now, 3))
  }

  /** The store after the first `writes` of the three pipelined writes of a rotation. */
  function Rotation(codec: Codec, s: Store, replaced: string, hashed: string, now: int, writes: nat): Store
    requires writes <= 3
  {
    var s1 := if writes >= 1 then s[OLD_KEY := Entry(replaced, Some(now + DAY))] else s;
    var s2 := if writes >= 2 then s1[CURRENT_KEY := Entry(hashed, None)] else s1;
    if writes == 3 then s2[ROTATION_KEY := Entry(codec.stamp(now), None)] else s2
  }

  /** The verdict on a key from the three values a check reads, the last at time `now`. */
  function Verdict(codec: Codec, key: string, current: Option<string>, previous: Option<string>,
                   rotation: Option<string>, now: int): Result<bool, Error> {
    var hashed := HashKey(codec, key);
    if key == "" then Ok(false)
    else if current == Some(hashed) then Ok(true)
    else if previous != Some(hashed) then Ok(false)
    else if rotation.None? then Err(NoRotationTime)
    else match codec.parseStamp(rotation.value)
      case None => Err(BadRotationTime)
      case Some(at) => Ok(now - at <= DAY)
  }

  function IsValid(codec: Codec, s: Store, key: string, now: int): Result<bool, Error> {
    Verdict(codec, key, Get(s, CURRENT_KEY, now), Get(s, OLD_KEY, now), Get(s, ROTATION_KEY, now), now)
  }

  // ---------- the service ----------

  class APIKeyService {
    const rdb: RedisClient
    const codec: Codec

    constructor (rdb: RedisClient, codec: Codec)
      ensures this.rdb == rdb && this.codec == codec
    {
      this.rdb := rdb;
      this.codec := codec;
    }

    /** `configured` is the value of AUTH_SERVICE_API_KEY. */
    method SyncAPIKey(configured: string, now: int) returns (error: Option<Error>)
      requires Sound(codec)
      modifies rdb
      ensures match Sync(codec, old(rdb.entries), configured, now)
              case Ok(s) => error == None && rdb.entries == s
              case Err(e) => error == Some(e) && rdb.entries == old(rdb.entries)
    {
      if configured == "" {
        return Some(EmptyKey);
      }
      var hashedNewKey := Hex(codec.sha256(configured));
      var current := rdb.GetValue(CURRENT_KEY, now);
      if current.None? {
        error := SetInitialAPIKey(configured, now);
        return;
      }
      if |hashedNewKey| == |current.value| && hashedNewKey == current.value {
        return None;
      }
      rdb.SetValue(OLD_KEY, current.value, DAY, now);
      rdb.SetValue(CURRENT_KEY, hashedNewKey, 0, now);
      rdb.SetValue(ROTATION_KEY, codec.stamp(now), 0, now);
      return None;
    }

    method SetInitialAPIKey(configured: string, now: int) returns (error: Option<Error>)
      modifies rdb
      ensures configured == "" ==> error == Some(EmptyKey) && rdb.entries == old(rdb.entries)
      ensures configured != "" ==>
                error == None
                && rdb.entries == old(rdb.entries)
                     [CURRENT_KEY := Entry(HashKey(codec, configured), None)]
                     [ROTATION_KEY := Entry(codec.stamp(now), None)]
    {
      if configured == "" {
        return Some(EmptyKey);
      }
      var hashedKey := Hex(codec.sha256(configured));
      rdb.SetValue(CURRENT_KEY, hashedKey, 0, now);
      rdb.SetValue(ROTATION_KEY, codec.stamp(now), 0, now);
      return None;
    }

    /** A missing entry reads as the empty text, which no digest is. */
    method IsValidAPIKey(key: string, now: int) returns (r: Result<bool, Error>)
      requires Sound(codec)
      ensures r == IsValid(codec, rdb.entries, key, now)
    {
      if key == "" {
        return Ok(false);
      }
      var hashedKey := Hex(codec.sha256(key));
      HexRoundTrip(codec.sha256(key));
      var current := rdb.GetValue(CURRENT_KEY, now);
      var currentHashedKey := if current.Some? then current.value else "";
      if |hashedKey| == |currentHashedKey| && hashedKey == currentHashedKey {
        return Ok(true);
      }
      var previous := rdb.GetValue(OLD_KEY, now);
      var oldHashedKey := if previous.Some? then previous.value else "";
      if oldHashedKey != "" && |hashedKey| == |oldHashedKey| && hashedKey == oldHashedKey {
        var rotation := rdb.GetValue(ROTATION_KEY, now);
        if rotation.None? {
          return Err(NoRotationTime);
        }
        var rotationTime := codec.parseStamp(rotation.value);
        if rotationTime.None? {
          return Err(BadRotationTime);
        }
        if now - rotationTime.value <= DAY {
          return Ok(true);
        }
      }
      return Ok(false);
    }
  }
}
