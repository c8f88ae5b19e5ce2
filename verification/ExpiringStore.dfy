/** The in-memory stand-in for Redis, whose expired entries linger until they are asked for, and the service over it. */
module ExpiringStore {
  import opened Common

  datatype Entry<V> = Entry(value: V, expiresAt: Option<int>)

  predicate Expired<V>(e: Entry<V>, now: int) { e.expiresAt.Some? && e.expiresAt.value <= now }

  /** What a reader may see of a key; entries that are only waiting to be purged are invisible. */
  function Visible<K, V>(storage: map<K, Entry<V>>, key: K, now: int): Option<V> {
    if key in storage && !Expired(storage[key], now) then Some(storage[key].value) else None
  }

  function TtlMs(seconds: int): nat { Max(0, seconds) * 1000 }

  /** A value is visible from the moment it is stored for exactly its lifetime, and no other key is affected. */
  lemma VisibleForLifetime<K, V>(storage: map<K, Entry<V>>, key: K, value: V, seconds: int, stored: int, now: int,
                                 other: K)
    ensures var later := storage[key := Entry(value, Some(stored + TtlMs(seconds)))];
      && Visible(later, key, now) == (if now < stored + Max(0, 1000 * seconds) then Some(value) else None)
      && (other != key ==> Visible(later, other, now) == Visible(storage, other, now))
  {
  }

  class MemoryClient<K(==), V(==)> {
    var storage: map<K, Entry<V>>

    constructor ()
      ensures storage == map[]
    {
      storage := map[];
    }

    /** Purging one key changes nothing a reader can see from now on, at this key or any other. */
    method PurgeExpired(key: K, now: int)
      modifies this
      ensures storage == if key in old(storage) && Expired(old(storage)[key], now) then old(storage) - {key}
                         else old(storage)
      ensures forall k, later :: later >= now ==> Visible(storage, k, later) == Visible(old(storage), k, later)
    {
      if key in storage {
        var item := storage[key];
        if item.expiresAt.Some? && item.expiresAt.value <= now {
          storage := storage - {key};
        }
      }
    }

    method SetEx(key: K, seconds: int, value: V, now: int)
      modifies this
      ensures storage == old(storage)[key := Entry(value, Some(now + TtlMs(seconds)))]
    {
      var ttlMs := Max(0, seconds) * 1000;
      storage := storage[key := Entry(value, Some(now + ttlMs))];
    }

    method Get(key: K, now: int) returns (value: Option<V>)
      modifies this
      ensures value == Visible(old(storage), key, now)
      ensures value.Some? ==> storage == old(storage)
      ensures storage - {key} == old(storage) - {key} && (value.None? ==> storage == old(storage) - {key})
    {
      PurgeExpired(key, now);
      value := if key in storage then Some(storage[key].value) else None;
    }
  }

  class RedisService<K(==), V(==)> {
    const client: MemoryClient<K, V>

    constructor (client: MemoryClient<K, V>)
      ensures this.client == client
    {
      this.client := client;
    }

    /** Sets the key only where nothing is visible, and says whether it did. */
    method SetIfAbsent(key: K, value: V, expireSeconds: int, now: int) returns (stored: bool)
      modifies client
      ensures stored <==> Visible(old(client.storage), key, now) == None
      ensures client.storage
           == if stored then old(client.storage)[key := Entry(value, Some(now + TtlMs(expireSeconds)))]
              else old(client.storage)
    {
      var existing := client.Get(key, now);
      if existing != None { return false; }
      client.SetEx(key, expireSeconds, value, now);
      stored := true;
    }
  }
}
