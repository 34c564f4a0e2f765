/** A process-wide key/value cache whose entries expire at an absolute instant. */
module ResultCache {
  import opened Wrappers

  /** An instant, in 100-nanosecond ticks. */
  type Instant = int

  /** A cached value together with the instant it expires at. */
  datatype Entry<V> = Entry(value: V, expiry: Instant)

  /** The value stored under `key`, unless it is missing or has expired by `now`. */
  function LookupIn<V>(entries: map<string, Entry<V>>, key: string, now: Instant): (r: Option<V>)
    ensures r.Some? <==> key in entries && now < entries[key].expiry
    ensures r.Some? ==> r.value == entries[key].value
  {
    if key in entries && now < entries[key].expiry then Some(entries[key].value) else None
  }

  /** A value added at `key` is returned by every lookup strictly before its expiry and by none after. */
  lemma LookupAfterAdd<V>(entries: map<string, Entry<V>>, key: string, value: V, expiry: Instant, now: Instant)
    ensures LookupIn(entries[key := Entry(value, expiry)], key, now) == if now < expiry then Some(value) else None
  {
  }

  /** Adding under one key leaves every other key's lookups as they were. */
  lemma LookupOtherKey<V>(entries: map<string, Entry<V>>, key: string, other: string, value: V, expiry: Instant, now: Instant)
    requires other != key
    ensures LookupIn(entries[key := Entry(value, expiry)], other, now) == LookupIn(entries, other, now)
  {
  }

  class Cache<V> {
    var entries: map<string, Entry<V>>

    constructor ()
      ensures entries == map[]
    {
      entries := map[];
    }

    function Lookup(key: string, now: Instant): Option<V>
      reads this
    {
      LookupIn(entries, key, now)
    }

    /** Cache.Get: the live value under `key`, if any. */
    method Get(key: string, now: Instant) returns (r: Option<V>)
      ensures r == Lookup(key, now)
    {
      r := LookupIn(entries, key, now);
    }

    /** Cache.Add: stores `value` under `key` until `expiry`, replacing any earlier entry. */
    method Add(key: string, value: V, expiry: Instant)
      modifies this
      ensures entries == old(entries)[key := Entry(value, expiry)]
    {
      entries := entries[key := Entry(value, expiry)];
    }
  }
}
