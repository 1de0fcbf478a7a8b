/** The part of Redis the service uses: string keys, string values, optional deadlines.
    Times are milliseconds of one clock. An entry is visible up to and including its deadline. */
module Redis {
  import opened Prelude
  import opened Decimal

  datatype Entry = Entry(value: string, deadline: Option<int>)

  type Store = map<string, Entry>

  predicate Live(s: Store, key: string, now: int) {
    key in s && (s[key].deadline.None? || now <= s[key].deadline.value)
  }

  function Get(s: Store, key: string, now: int): Option<string> {
    if Live(s, key, now) then Some(s[key].value) else None
  }

  /** SET as the Go client issues it: a time to live of zero or less stores no deadline. */
  function Set(s: Store, key: string, value: string, ttl: int, now: int): Store {
    s[key := Entry(value, if ttl > 0 then Some(now + ttl) else None)]
  }

  /** INCR starts from 0 and without a deadline when the key is not visible, and keeps the deadline otherwise. */
  function Incr(s: Store, key: string, now: int): Option<Store> {
    if !Live(s, key, now) then Some(s[key := Entry("1", None)])
    else match ParseInt(s[key].value)
      case None => None
      case Some(n) =>
        if n == MAX_INT64 then None else Some(s[key := Entry(FormatInt(n + 1), s[key].deadline)])
  }

  /** EXPIRE in milliseconds; a time to live of zero or less deletes the key. */
  function Expire(s: Store, key: string, ttl: int, now: int): Store {
    if !Live(s, key, now) then s
    else if ttl <= 0 then s - {key}
    else s[key := Entry(s[key].value, Some(now + ttl))]
  }

  /** SETEX refuses a time to live of zero or less. */
  function SetEx(s: Store, key: string, value: string, ttl: int, now: int): Option<Store> {
    if ttl <= 0 then None else Some(s[key := Entry(value, Some(now + ttl))])
  }

  /** The server as its clients see it. Each method is one command. */
  class RedisClient {
    var entries: Store

    constructor ()
      ensures entries == map[]
    {
      entries := map[];
    }

    method GetValue(key: string, now: int) returns (r: Option<string>)
      ensures r == Get(entries, key, now)
    {
      r := if key in entries && (entries[key].deadline.None? || now <= entries[key].deadline.value)
      then Some(entries[key].value) else None;
    }

    method SetValue(key: string, value: string, ttl: int, now: int)
      modifies this
      ensures entries == Set(old(entries), key, value, ttl, now)
    {
      if ttl > 0 {
        entries := entries[key := Entry(value, Some(now + ttl))];
      } else {
        entries := entries[key := Entry(value, None)];
      }
    }

    method Increment(key: string, now: int) returns (ok: bool)
      modifies this
      ensures ok == Incr(old(entries), key, now).Some?
      ensures entries == if ok then Incr(old(entries), key, now).value else old(entries)
    {
      var visible := GetValue(key, now);
      if visible.None? {
        entries := entries[key := Entry("1", None)];
        return true;
      }
      var n := ParseInt(visible.value);
      if n.None? || n.value == MAX_INT64 {
        return false;
      }
      entries := entries[key := Entry(FormatInt(n.value + 1), entries[key].deadline)];
      return true;
    }

    method ExpireIn(key: string, ttl: int, now: int)
      modifies this
      ensures entries == Expire(old(entries), key, ttl, now)
    {
      var visible := GetValue(key, now);
      if visible.Some? {
        if ttl <= 0 {
          entries := entries - {key};
        } else {
          entries := entries[key := entries[key].(deadline := Some(now + ttl))];
        }
      }
    }

    method SetWithExpiry(key: string, value: string, ttl: int, now: int) returns (ok: bool)
      modifies this
      ensures ok == SetEx(old(entries), key, value, ttl, now).Some?
      ensures entries == if ok then SetEx(old(entries), key, value, ttl, now).value else old(entries)
    {
      if ttl <= 0 {
        return false;
      }
      entries := entries[key := Entry(value, Some(now + ttl))];
      return true;
    }
  }
}
