/** The token bucket limiter as it keeps its state: bucket objects in a map, refilled on demand, and
    evicted by walking the map. */
module TokenLimiter {
  import opened TokenBuckets

  class Bucket {
    const config: Config
    var tokens: real
    var lastRefill: real
    var lastSeen: real

    constructor (config: Config, now: real)
      ensures this.config == config && Valid() && View() == Full(config, now)
    {
      this.config := config;
      tokens, lastRefill, lastSeen := config.capacity, now, now;
    }

    predicate Valid()
      reads this
    {
      lastSeen == lastRefill
    }

    function View(): Level
      reads this
    {
      Level(tokens, lastRefill)
    }

    method Allow(now: real) returns (ok: bool)
      requires Valid()
      modifies this
      ensures Valid() && View() == After(config, old(View()), now)
      ensures ok == Admits(config, old(View()), now)
    {
      hide Gain;
      var elapsed := now - lastRefill;
      lastRefill := now;
      lastSeen := now;
      tokens := tokens + Gain(config, elapsed);
      if tokens > config.capacity {
        tokens := config.capacity;
      }
      if tokens >= 1.0 {
        tokens := tokens - 1.0;
        return true;
      }
      return false;
    }
  }

  class Limiter {
    const config: Config
    var store: map<string, Bucket>

    constructor (config: Config)
      ensures this.config == config && Valid() && View() == map[] && Objects() == {}
    {
      this.config := config;
      store := map[];
    }

    ghost function Objects(): set<Bucket>
      reads this
    {
      set host | host in store :: store[host]
    }

    ghost predicate OwnBucket(host: string, other: string)
      reads this
    {
      host in store && other in store && store[host] == store[other] ==> host == other
    }

    ghost predicate BucketOk(host: string)
      reads this, Objects()
    {
      host in store ==> store[host].config == config && store[host].Valid()
    }

    /** Every host has a bucket of its own, configured like the limiter. */
    ghost predicate Valid()
      reads this, Objects()
    {
      (forall host, other :: OwnBucket(host, other)) && (forall host :: BucketOk(host))
    }

    ghost function View(): Buckets
      reads this, Objects()
    {
      map host | host in store :: store[host].View()
    }

    /** The get-or-create part of the middleware. */
    method GetOrCreate(host: string, now: real) returns (bucket: Bucket)
      requires Valid()
      modifies this
      ensures Valid() && host in store && store[host] == bucket
      ensures View() == old(View())[host := Current(config, old(View()), host, now)]
      ensures fresh(Objects() - old(Objects()))
    {
      if host !in store {
        bucket := new Bucket(config, now);
        store := store[host := bucket];
      } else {
        bucket := store[host];
      }
      forall h, other
        ensures OwnBucket(h, other)
      {
        assert old(OwnBucket(h, other));
      }
      forall h
        ensures BucketOk(h)
      {
        assert old(BucketOk(h));
      }
    }

    /** Ask the bucket of a host. */
    method AskBucket(host: string, bucket: Bucket, now: real) returns (ok: bool)
      requires Valid() && host in store && store[host] == bucket
      modifies bucket
      ensures Valid()
      ensures View() == old(View())[host := After(config, old(View())[host], now)]
      ensures ok == Admits(config, old(View())[host], now)
    {
      hide Gain;
      assert BucketOk(host);
      ok := bucket.Allow(now);
      forall h, other
        ensures OwnBucket(h, other)
      {
        assert old(OwnBucket(h, other));
      }
      forall h
        ensures BucketOk(h)
      {
        assert old(BucketOk(h)) && OwnBucket(h, host);
      }
      forall h | h in store && h != host
        ensures View()[h] == old(View())[h]
      {
        assert OwnBucket(h, host);
      }
    }

    /** One request, as one step. */
    method Handle(host: string, now: real) returns (ok: bool)
      requires Valid()
      modifies this, Objects()
      ensures Valid() && fresh(Objects() - old(Objects()))
      ensures View() == Next(config, old(View()), Request(host, now), true)
      ensures [ok] == Answer(config, old(View()), Request(host, now))
    {
      hide Gain, Admits, Refilled;
      var bucket := GetOrCreate(host, now);
      ok := AskBucket(host, bucket, now);
    }

    /** Drop every bucket that has been idle for longer than the ttl. */
    method EvictExpired(now: real)
      requires Valid()
      modifies this
      ensures Valid() && Objects() <= old(Objects())
      ensures View() == Next(config, old(View()), TokenBuckets.Evict(now), true)
    {
      var hosts := store.Keys;
      ghost var before := store;
      while hosts != {}
        invariant hosts <= before.Keys
        invariant forall h :: h in store <==> h in before && (h in hosts || now - before[h].lastSeen <= config.ttl)
        invariant forall h :: h in store ==> store[h] == before[h]
        decreases |hosts|
      {
        var host :| host in hosts;
        if now - store[host].lastSeen > config.ttl {
          store := store - {host};
        }
        hosts := hosts - {host};
      }
      forall h, other
        ensures OwnBucket(h, other)
      {
        assert old(OwnBucket(h, other));
      }
      forall h
        ensures BucketOk(h)
      {
        assert old(BucketOk(h));
      }
      forall h | h in before
        ensures before[h].lastSeen == before[h].lastRefill
      {
        assert old(BucketOk(h));
      }
      assert View() == Evicted(config, old(View()), now);
    }
  }
}
