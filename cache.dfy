// The in-memory cache with a time to live per entry. The clock is a
// parameter: `now` stands for `Instant::now()` at the moment of the
// call, in the same unit as the time to live.

module TtlCache {
  import opened Common

  /** A cached value and the instant after which it is stale. */
  datatype Entry<T> = Entry(data: T, expiresAt: int)

  /** What `get(key)` answers at `now`: the value while `now` has not passed its expiry. */
  function Lookup<T>(entries: map<string, Entry<T>>, key: string, now: int): Option<T>
  {
    if key in entries && now <= entries[key].expiresAt then Some(entries[key].data) else None
  }

  /** What `get(key)` leaves: a missing or stale key is removed, a live one kept. */
  function AfterGet<T>(entries: map<string, Entry<T>>, key: string, now: int): map<string, Entry<T>>
  {
    if Lookup(entries, key, now).None? then entries - {key} else entries
  }

  /** What `cleanup` keeps: the entries whose expiry is still ahead of `now`. */
  function Live<T>(entries: map<string, Entry<T>>, now: int): map<string, Entry<T>>
  {
    map k | k in entries && entries[k].expiresAt > now :: entries[k]
  }

  class Cache<T> {
    var entries: map<string, Entry<T>>
    const defaultTtl: nat

    /** `Cache::new`: an empty cache with the given default time to live. */
    constructor (defaultTtl: nat)
      ensures entries == map[] && this.defaultTtl == defaultTtl
    {
      entries := map[];
      this.defaultTtl := defaultTtl;
    }

    /** `set`: store `data` until `now` plus the given or the default time to live, replacing any entry. */
    method Set(key: string, data: T, ttl: Option<nat>, now: int)
      modifies this
      ensures entries == old(entries)[key := Entry(data, now + (if ttl.Some? then ttl.value else defaultTtl))]
    {
      var expiresAt := now + (if ttl.Some? then ttl.value else defaultTtl);
      entries := entries[key := Entry(data, expiresAt)];
    }

    /** `get`: the live value of `key`, removing the key when it is missing or stale. */
    method Get(key: string, now: int) returns (r: Option<T>)
      modifies this
      ensures r == Lookup(old(entries), key, now)
      ensures entries == AfterGet(old(entries), key, now)
    {
      var isExpired := if key in entries then now > entries[key].expiresAt else true;
      if isExpired {
        entries := entries - {key};
        return None;
      }
      return Some(entries[key].data);
    }

    /** `has`: whether `get` finds a live value, with the same removal. */
    method Has(key: string, now: int) returns (b: bool)
      modifies this
      ensures b <==> Lookup(old(entries), key, now).Some?
      ensures entries == AfterGet(old(entries), key, now)
    {
      var r := Get(key, now);
      b := r.Some?;
    }

    /** `clear`: drop every entry. */
    method Clear()
      modifies this
      ensures entries == map[]
    {
      entries := map[];
    }

    /** `cleanup`: keep only the entries whose expiry is still ahead. */
    method Cleanup(now: int)
      modifies this
      ensures entries == Live(old(entries), now)
    {
      entries := Live(entries, now);
    }
  }

  /**
   * A value just set is found until its time to live has run out and
   * not afterwards; the other keys answer as before.
   */
  lemma SetThenLookup<T>(entries: map<string, Entry<T>>, key: string, data: T, ttl: nat, now: int, later: int,
                         other: string)
    requires other != key
    ensures Lookup(entries[key := Entry(data, now + ttl)], key, later) == Some(data) <==> later <= now + ttl
    ensures Lookup(entries[key := Entry(data, now + ttl)], key, later).None? <==> later > now + ttl
    ensures Lookup(entries[key := Entry(data, now + ttl)], other, later) == Lookup(entries, other, later)
  {
  }

  /** `get` removes at most its own key, and asking again at the same instant answers the same. */
  lemma GetIsStable<T>(entries: map<string, Entry<T>>, key: string, now: int, other: string)
    requires other != key
    ensures Lookup(AfterGet(entries, key, now), key, now) == Lookup(entries, key, now)
    ensures AfterGet(AfterGet(entries, key, now), key, now) == AfterGet(entries, key, now)
    ensures other in AfterGet(entries, key, now) <==> other in entries
    ensures other in entries ==> AfterGet(entries, key, now)[other] == entries[other]
    ensures key !in AfterGet(entries, key, now) <==> Lookup(entries, key, now).None?
  {
  }

  /**
   * `cleanup` changes no later answer of `get`; at the cleanup instant
   * itself it drops the entries expiring exactly then, which `get`
   * would still have returned.
   */
  lemma CleanupKeepsLaterLookups<T>(entries: map<string, Entry<T>>, now: int, later: int, key: string)
    requires later > now
    ensures Lookup(Live(entries, now), key, later) == Lookup(entries, key, later)
    ensures Lookup(Live(entries, now), key, now).Some? <==> key in entries && entries[key].expiresAt > now
    ensures Lookup(entries, key, now).Some? && Lookup(Live(entries, now), key, now).None? <==>
              key in entries && entries[key].expiresAt == now
  {
  }

  /** After `clear` nothing is found. */
  lemma ClearedFindsNothing<T>(key: string, now: int)
    ensures Lookup<T>(map[], key, now) == None
  {
  }

  /** The scenario of the cache's own tests: a value is there before its time to live and gone after. */
  method ExpiryScenario(ttl: nat, now: int, later: int) returns (first: Option<string>, second: Option<string>)
    requires later > now + ttl
    ensures first == Some("value1") && second == None
  {
    var cache := new Cache<string>(ttl);
    cache.Set("key1", "value1", None, now);
    first := cache.Get("key1", now);
    second := cache.Get("key1", later);
  }
}
