/** The response cache: an index from request keys to entries with a timestamp and a lifetime, read
    with lazy eviction. The clock is a parameter, and the index file is the `index` field. */
module Cache {
  import opened Opt

  const DefaultTtlHours: int := 24
  const MillisPerHour: int := 60 * 60 * 1000

  datatype CacheEntry = CacheEntry(timestamp: int, data: string, ttl: int)

  /** The lifetime of an entry in milliseconds: the given hours, or 24 hours by default. */
  function TtlMillis(customTtlHours: Option<int>): (ms: int)
    ensures customTtlHours.None? ==> ms == 86_400_000
    ensures customTtlHours.Some? ==> ms == customTtlHours.value * 3_600_000
  {
    customTtlHours.GetOr(DefaultTtlHours) * MillisPerHour
  }

  /** An entry has expired when strictly more than its lifetime has passed. */
  predicate Expired(e: CacheEntry, now: int)
  {
    now - e.timestamp > e.ttl
  }

  /** The index after `put`: the key holds a fresh entry, whatever it held before. */
  function Stored(index: map<string, CacheEntry>, key: string, data: string, customTtlHours: Option<int>, now: int): map<string, CacheEntry>
  {
    index[key := CacheEntry(now, data, TtlMillis(customTtlHours))]
  }

  /** What `get` answers: the data of a live entry, null for a missing or expired one. */
  function Lookup(index: map<string, CacheEntry>, key: string, now: int): (r: Option<string>)
    ensures r.Some? <==> key in index && !Expired(index[key], now)
    ensures r.Some? ==> r.value == index[key].data
  {
    if key !in index then None
    else if Expired(index[key], now) then None
    else Some(index[key].data)
  }

  /** The index after `get`: an expired entry for the key is dropped, and nothing else changes. */
  function AfterGet(index: map<string, CacheEntry>, key: string, now: int): (r: map<string, CacheEntry>)
    ensures forall k :: k != key ==> (k in r <==> k in index) && (k in r ==> r[k] == index[k])
    ensures key in r <==> Lookup(index, key, now).Some?
  {
    if key in index && Expired(index[key], now) then index - {key} else index
  }

  /** A stored value reads back until its lifetime is over, the last millisecond included. */
  lemma PutThenGet(index: map<string, CacheEntry>, key: string, data: string, customTtlHours: Option<int>, now: int, later: int)
    requires now <= later <= now + TtlMillis(customTtlHours)
    ensures Lookup(Stored(index, key, data, customTtlHours, now), key, later) == Some(data)
  {
  }

  /** After its lifetime a stored value reads as null, and reading drops it. */
  lemma PutThenGetExpired(index: map<string, CacheEntry>, key: string, data: string, customTtlHours: Option<int>, now: int, later: int)
    requires later > now + TtlMillis(customTtlHours)
    ensures Lookup(Stored(index, key, data, customTtlHours, now), key, later).None?
    ensures key !in AfterGet(Stored(index, key, data, customTtlHours, now), key, later)
  {
  }

  /** Storing under one key leaves every other key's answer as it was. */
  lemma PutKeepsOthers(index: map<string, CacheEntry>, key: string, data: string, customTtlHours: Option<int>, now: int, other: string, at: int)
    requires other != key
    ensures Lookup(Stored(index, key, data, customTtlHours, now), other, at) == Lookup(index, other, at)
  {
  }

  /** Eviction is invisible: right after a read, every key reads as it did before. */
  lemma AfterGetInvisible(index: map<string, CacheEntry>, key: string, now: int, k: string)
    ensures Lookup(AfterGet(index, key, now), k, now) == Lookup(index, k, now)
  {
  }

  /** Once expired, an entry stays expired as the clock moves forward. */
  lemma ExpiredStays(e: CacheEntry, now: int, later: int)
    requires Expired(e, now) && now <= later
    ensures Expired(e, later)
  {
  }

  class ApiCache {
    var index: map<string, CacheEntry>

    /** A cache over the index already on disk. */
    constructor(stored: map<string, CacheEntry>)
      ensures index == stored
    {
      index := stored;
    }

    /** Stores `data` under `key` at time `now`, with the given lifetime in hours (24 by default). */
    method Put(key: string, data: string, customTtlHours: Option<int>, now: int)
      modifies this
      ensures index == Stored(old(index), key, data, customTtlHours, now)
    {
      var ttl := customTtlHours.GetOr(DefaultTtlHours) * 60 * 60 * 1000;
      var entry := CacheEntry(now, data, ttl);
      index := index[key := entry];
    }

    /** The data under `key` at time `now`, evicting it if it has expired. */
    method Get(key: string, now: int) returns (r: Option<string>)
      modifies this
      ensures r == Lookup(old(index), key, now)
      ensures index == AfterGet(old(index), key, now)
    {
      if key !in index {
        return None;
      }
      var entry := index[key];
      if now - entry.timestamp > entry.ttl {
        index := index - {key};
        return None;
      }
      return Some(entry.data);
    }

    /** Whether `get` would answer, with the same eviction as a side effect. */
    method Contains(key: string, now: int) returns (b: bool)
      modifies this
      ensures b <==> Lookup(old(index), key, now).Some?
      ensures index == AfterGet(old(index), key, now)
    {
      var r := Get(key, now);
      b := r.Some?;
    }

    /** Drops the entry under `key`, if any. */
    method Remove(key: string)
      modifies this
      ensures index == old(index) - {key}
    {
      index := index - {key};
    }

    /** Deletes the cache directory, index included: every key then reads as missing. */
    method Clear()
      modifies this
      ensures index == map[]
      ensures forall key, now :: Lookup(index, key, now).None?
    {
      index := map[];
    }
  }
}
