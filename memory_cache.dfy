/**
 * The in-memory cache provider: a keyed store whose entries may carry an absolute
 * expiration computed from a relative expiry at the time of the write.
 */
module MemoryCache {
  import opened Wrappers
  import Entities

  /** The kinds of value the core stores in the cache. */
  datatype CacheValue =
    | StringValue(str: string)
    | TokenPair(tokens: Entities.TokensDto)
    | UserEntry(user: Entities.User)

  /** A stored value and, when it was written with an expiry, the time it stops being live. */
  datatype Entry = Entry(value: CacheValue, expiresAt: Option<int>)

  type Store = map<string, Entry>

  /** An entry is live until its absolute expiration (unix seconds). */
  predicate IsLive(e: Entry, now: int) {
    e.expiresAt.None? || now < e.expiresAt.value
  }

  /** The value a read of `key` at `now` observes. */
  function Lookup(store: Store, key: string, now: int): (r: Option<CacheValue>)
    ensures r.Some? <==> key in store && IsLive(store[key], now)
    ensures r.Some? ==> r.value == store[key].value
  {
    if key in store && IsLive(store[key], now) then Some(store[key].value) else None
  }

  /** The store after writing `value` under `key` at `now`, live for `expiry` seconds when given. */
  function Put(store: Store, key: string, value: CacheValue, expiry: Option<int>, now: int): Store {
    store[key := Entry(value, if expiry.Some? then Some(now + expiry.value) else None)]
  }

  /**
   * A write is read back for exactly its expiry: at any time from the write until the
   * expiry has elapsed (forever without one), and not afterwards; other keys keep the
   * value they had.
   */
  lemma ReadAfterWrite(store: Store, key: string, value: CacheValue, expiry: Option<int>, now: int, at: int, other: string)
    requires expiry.Some? ==> expiry.value > 0
    requires at >= now && other != key
    ensures Lookup(Put(store, key, value, expiry, now), key, at) == Some(value) <==>
      expiry.None? || at < now + expiry.value
    ensures Lookup(Put(store, key, value, expiry, now), key, at).None? <==>
      expiry.Some? && at >= now + expiry.value
    ensures Lookup(Put(store, key, value, expiry, now), other, at) == Lookup(store, other, at)
  {
  }

  /** A removed key reads as absent at any time; other keys are unaffected. */
  lemma ReadAfterRemove(store: Store, key: string, other: string, at: int)
    requires other != key
    ensures Lookup(store - {key}, key, at).None?
    ensures Lookup(store - {key}, other, at) == Lookup(store, other, at)
  {
  }

  /** The provider over an `IMemoryCache`; `entries` is the cache's content. */
  class MemoryCacheProvider {
    var entries: Store

    constructor ()
      ensures entries == map[]
    {
      entries := map[];
    }

    /** The memory cache is always connected. */
    function IsConnected(): (b: bool)
      ensures b
    {
      true
    }

    /** The live value under `key`, of whatever kind; the store is unchanged. */
    method GetAsync(key: string, now: int) returns (r: Option<CacheValue>)
      ensures r == Lookup(entries, key, now)
    {
      if key in entries && IsLive(entries[key], now) {
        r := Some(entries[key].value);
      } else {
        r := None;
      }
    }

    /** The live string under `key`; a missing, expired or non-string entry reads as null. */
    method GetStringAsync(key: string, now: int) returns (r: Option<string>)
      ensures r.Some? <==> Lookup(entries, key, now).Some? && Lookup(entries, key, now).value.StringValue?
      ensures r.Some? ==> Lookup(entries, key, now) == Some(StringValue(r.value))
    {
      var v := GetAsync(key, now);
      if v.Some? && v.value.StringValue? {
        r := Some(v.value.str);
      } else {
        r := None;
      }
    }

    /** Writes a string with an optional relative expiry; always reports success. */
    method SetStringAsync(key: string, value: string, expiry: Option<int>, now: int) returns (ok: bool)
      requires expiry.Some? ==> expiry.value > 0
      modifies this
      ensures entries == Put(old(entries), key, StringValue(value), expiry, now)
      ensures ok
    {
      ok := SetAsync(key, StringValue(value), expiry, now);
    }

    /** Writes any value with an optional relative expiry; always reports success. */
    method SetAsync(key: string, value: CacheValue, expiry: Option<int>, now: int) returns (ok: bool)
      requires expiry.Some? ==> expiry.value > 0
      modifies this
      ensures entries == Put(old(entries), key, value, expiry, now)
      ensures ok
    {
      var expiresAt := None;
      if expiry.Some? {
        expiresAt := Some(now + expiry.value);
      }
      entries := entries[key := Entry(value, expiresAt)];
      ok := true;
    }

    /** Removes `key` whether or not it is present; always reports success. */
    method RemoveAsync(key: string) returns (ok: bool)
      modifies this
      ensures entries == old(entries) - {key}
      ensures ok
    {
      entries := entries - {key};
      ok := true;
    }

    /** Whether a live entry exists under `key`; the store is unchanged. */
    method ExistsAsync(key: string, now: int) returns (exists_: bool)
      ensures exists_ <==> Lookup(entries, key, now).Some?
    {
      exists_ := key in entries && IsLive(entries[key], now);
    }
  }
}
