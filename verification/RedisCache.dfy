/** The response cache object: one worker's client of the shared Redis data. */
module RedisCache {
  import opened Wrappers
  import opened Redis
  import Spec = CacheSpec

  datatype ConfigError = MaxSizeNotPositive | TtlNotPositive

  class Cache {
    const redis: Server
    const maxSize: nat
    const ttl: nat
    var hits: nat
    var misses: nat

    ghost function Config(): Spec.Config {
      Spec.Config(maxSize, ttl)
    }

    constructor (redis: Server, maxSize: nat, ttl: nat)
      ensures this.redis == redis && this.maxSize == maxSize && this.ttl == ttl
      ensures hits == 0 && misses == 0
    {
      this.redis, this.maxSize, this.ttl := redis, maxSize, ttl;
      hits, misses := 0, 0;
    }

    /** The argument checks of the constructor; the TTL is cut to whole seconds. */
    static method Create(redis: Server, maxSize: int, ttlSeconds: real) returns (r: Result<Cache, ConfigError>)
      ensures r.Ok? <==> maxSize > 0 && ttlSeconds > 0.0
      ensures r.Ok? ==> fresh(r.value) && r.value.redis == redis && r.value.maxSize == maxSize
      ensures r.Ok? ==> r.value.ttl as real <= ttlSeconds < (r.value.ttl + 1) as real
      ensures r.Ok? ==> r.value.hits == 0 && r.value.misses == 0
      ensures maxSize <= 0 ==> r == Err(MaxSizeNotPositive)
    {
      if maxSize <= 0 {
        return Err(MaxSizeNotPositive);
      }
      if ttlSeconds <= 0.0 {
        return Err(TtlNotPositive);
      }
      var cache := new Cache(redis, maxSize, ttlSeconds.Floor);
      return Ok(cache);
    }

    /** A hit refreshes the key's score; a miss leaves Redis alone. Each call counts once. */
    method Get(key: Key, now: int) returns (r: Option<string>)
      modifies this, redis
      ensures r == Spec.Lookup(old(redis.Contents()), key, now)
      ensures redis.Contents() == Spec.AfterGet(old(redis.Contents()), key, now)
      ensures hits == old(hits) + (if r.Some? then 1 else 0)
      ensures misses == old(misses) + (if r.None? then 1 else 0)
    {
      r := redis.Get(key, now);
      if r.None? {
        misses := misses + 1;
        return;
      }
      redis.ZAdd(key, now);
      hits := hits + 1;
    }

    /** Redis carries out so many commands; if the put needs more, the next one raises. */
    method Put(key: Key, text: string, now: int, commands: nat) returns (done: bool)
      modifies redis
      ensures redis.Contents() == Spec.PutPrefix(Config(), old(redis.Contents()), key, text, now, commands)
      ensures done <==> Spec.PutDone(Config(), old(redis.Contents()), key, commands)
      ensures done ==> redis.Contents() == Spec.AfterPut(Config(), old(redis.Contents()), key, text, now)
    {
      if commands == 0 {
        return false;
      }
      redis.SetAndAdd(key, text, ttl, now, now);
      assert redis.Contents() == Spec.Stored(old(redis.Contents()), key, Entry(text, now + ttl), now);
      assert redis.lru.Keys == old(redis.lru).Keys + {key};
      done := EvictIfNeeded(now, commands - 1);
    }

    method EvictIfNeeded(now: int, commands: nat) returns (done: bool)
      modifies redis
      ensures redis.Contents() == Spec.EvictPrefix(old(redis.Contents()), maxSize, commands)
      ensures done <==> commands >= if old(|redis.lru|) <= maxSize then 1 else 4
      ensures done ==> redis.Contents() == Spec.Evicted(old(redis.Contents()), maxSize)
    {
      if commands == 0 {
        return false;
      }
      var count := redis.ZCard();
      if count <= maxSize {
        return true;
      }
      var overflow := count - maxSize;
      if commands == 1 {
        return false;
      }
      var lruKeys := redis.ZRange(overflow);
      if lruKeys != {} {
        if commands == 2 {
          return false;
        }
        var _ := redis.Delete(lruKeys, now);
        if commands == 3 {
          return false;
        }
        redis.ZRem(lruKeys);
      }
      done := true;
    }

    /** True exactly when the key still answered a get. */
    method Invalidate(key: Key, now: int) returns (removed: bool)
      modifies redis
      ensures redis.Contents() == Spec.AfterInvalidate(old(redis.Contents()), key)
      ensures removed <==> Spec.Lookup(old(redis.Contents()), key, now).Some?
    {
      var count := redis.Delete({key}, now);
      assert LiveAmong(old(redis.values), {key}, now) ==
             if Spec.Lookup(old(redis.Contents()), key, now).Some? then {key} else {};
      redis.ZRem({key});
      removed := count > 0;
    }

    method Clear(now: int)
      modifies redis
      ensures redis.Contents() == Spec.AfterClear(old(redis.Contents()))
    {
      var keys := redis.ZRangeAll();
      if keys != {} {
        var _ := redis.Delete(keys, now);
      }
      redis.DeleteLru();
    }

    method Size() returns (n: nat)
      ensures n == |redis.Contents().lru|
    {
      n := redis.ZCard();
    }
  }
}
