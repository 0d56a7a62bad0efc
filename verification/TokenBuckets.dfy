/** The token bucket limiter over exact reals: one bucket, runs of requests, and a store of buckets
    with eviction.  Times are seconds on a clock that does not go back. */
module TokenBuckets {
  import opened Basics

  datatype Config = Config(capacity: real, rate: real, ttl: real)

  /** Tokens left, and the time of the last refill, which is also the time last seen. */
  datatype Level = Level(tokens: real, last: real)

  predicate Sane(c: Config) {
    0.0 <= c.capacity && 0.0 <= c.rate && 0.0 <= c.ttl
  }

  // ---------------------------------------------------------------- one bucket

  /** What flows in over a stretch of time. */
  function Gain(c: Config, elapsed: real): real {
    elapsed * c.rate
  }

  lemma GainIs(c: Config, elapsed: real)
    ensures Gain(c, elapsed) == c.rate * elapsed
  {
  }

  lemma GainAdds(c: Config, x: real, y: real)
    ensures Gain(c, x + y) == Gain(c, x) + Gain(c, y) && Gain(c, 0.0) == 0.0
  {
  }

  lemma GainGrows(c: Config, x: real, y: real)
    requires 0.0 <= c.rate && x <= y
    ensures Gain(c, x) <= Gain(c, y)
  {
    assert 0.0 <= (y - x) * c.rate;
  }

  function Refilled(c: Config, b: Level, now: real): real {
    MinReal(c.capacity, b.tokens + Gain(c, now - b.last))
  }

  function Admits(c: Config, b: Level, now: real): bool {
    Refilled(c, b, now) >= 1.0
  }

  function After(c: Config, b: Level, now: real): Level {
    Level(Refilled(c, b, now) - if Admits(c, b, now) then 1.0 else 0.0, now)
  }

  function Full(c: Config, now: real): Level {
    Level(c.capacity, now)
  }

  ghost predicate LevelOk(c: Config, b: Level, now: real) {
    0.0 <= b.tokens <= c.capacity && b.last <= now
  }

  lemma AfterOk(c: Config, b: Level, now: real)
    requires Sane(c) && LevelOk(c, b, now)
    ensures LevelOk(c, After(c, b, now), now)
  {
    hide Gain;
    GainAdds(c, 0.0, 0.0);
    GainGrows(c, 0.0, now - b.last);
  }

  // ---------------------------------------------------------------- runs of one bucket

  /** The requests arrive in time order, none before start. */
  ghost predicate Ordered(times: seq<real>, start: real) {
    && (forall i :: 0 <= i < |times| ==> start <= times[i])
    && forall i, j :: 0 <= i < j < |times| ==> times[i] <= times[j]
  }

  function RunBucket(c: Config, b: Level, times: seq<real>): Level {
    if times == [] then b
    else After(c, RunBucket(c, b, times[..|times| - 1]), times[|times| - 1])
  }

  function Admitted(c: Config, b: Level, times: seq<real>): nat {
    if times == [] then 0
    else
      Admitted(c, b, times[..|times| - 1])
      + if Admits(c, RunBucket(c, b, times[..|times| - 1]), times[|times| - 1]) then 1 else 0
  }

  function LastTime(b: Level, times: seq<real>): real {
    if times == [] then b.last else times[|times| - 1]
  }

  lemma {:induction false} RunOk(c: Config, b: Level, times: seq<real>)
    requires Sane(c) && LevelOk(c, b, b.last) && Ordered(times, b.last)
    ensures LevelOk(c, RunBucket(c, b, times), LastTime(b, times))
    ensures RunBucket(c, b, times).last == LastTime(b, times)
  {
    hide Gain;
    if times != [] {
      RunOk(c, b, times[..|times| - 1]);
      AfterOk(c, RunBucket(c, b, times[..|times| - 1]), times[|times| - 1]);
    }
  }

  lemma {:induction false} TokensCovered(c: Config, b: Level, times: seq<real>)
    requires Sane(c) && LevelOk(c, b, b.last) && Ordered(times, b.last) && times != []
    ensures Admitted(c, b, times) as real + RunBucket(c, b, times).tokens
         <= c.capacity + Gain(c, times[|times| - 1] - times[0])
  {
    hide Gain;
    var front, now := times[..|times| - 1], times[|times| - 1];
    var mid := RunBucket(c, b, front);
    RunOk(c, b, front);
    if front == [] {
      GainAdds(c, 0.0, 0.0);
    } else {
      TokensCovered(c, b, front);
      GainAdds(c, front[|front| - 1] - times[0], now - mid.last);
      assert now - times[0] == (front[|front| - 1] - times[0]) + (now - mid.last);
    }
  }

  /** Tokens spent and tokens left are covered by one full bucket and the refill since the first
      request. */
  lemma TokensAccount(c: Config, b: Level, times: seq<real>)
    requires Sane(c) && LevelOk(c, b, b.last) && Ordered(times, b.last) && times != []
    ensures Admitted(c, b, times) as real + RunBucket(c, b, times).tokens
         <= c.capacity + c.rate * (times[|times| - 1] - times[0])
  {
    hide Admitted, Gain, LevelOk, Ordered, RunBucket, Sane;
    TokensCovered(c, b, times);
    GainIs(c, times[|times| - 1] - times[0]);
  }

  /** From any state a bucket can be in, the requests of a stretch from t1 to t2 that are admitted
      number at most capacity + rate * (t2 - t1). */
  lemma RateBound(c: Config, b: Level, times: seq<real>)
    requires Sane(c) && LevelOk(c, b, b.last) && Ordered(times, b.last) && times != []
    ensures Admitted(c, b, times) as real <= c.capacity + c.rate * (times[|times| - 1] - times[0])
  {
    hide Admitted, Gain, LevelOk, Ordered, RunBucket, Sane;
    TokensAccount(c, b, times);
    TokensLeft(c, b, times);
  }

  lemma TokensLeft(c: Config, b: Level, times: seq<real>)
    requires Sane(c) && LevelOk(c, b, b.last) && Ordered(times, b.last)
    ensures 0.0 <= RunBucket(c, b, times).tokens
  {
    RunOk(c, b, times);
  }

  /** And no less flows in: left alone, an empty bucket admits a request exactly when it can hold a token
      and rate * (t2 - t1) has reached one. */
  lemma EmptyAdmitsIff(c: Config, start: real, now: real)
    requires Sane(c) && start <= now
    ensures Admits(c, Level(0.0, start), now) <==> c.capacity >= 1.0 && c.rate * (now - start) >= 1.0
  {
    hide Gain;
    GainIs(c, now - start);
  }

  /** More generally the tokens are what was left and what has flowed in, up to the capacity; an admitted
      request takes one, a denied one takes none. */
  lemma TokensAfter(c: Config, b: Level, now: real)
    requires Sane(c) && LevelOk(c, b, now)
    ensures var there := b.tokens + c.rate * (now - b.last);
      var held := if there <= c.capacity then there else c.capacity;
      && (Admits(c, b, now) <==> held >= 1.0)
      && After(c, b, now).last == now
      && After(c, b, now).tokens == if held >= 1.0 then held - 1.0 else held
  {
    hide Gain;
    GainIs(c, now - b.last);
  }

  // ---------------------------------------------------------------- a store of buckets

  type Buckets = map<string, Level>

  datatype Event = Request(host: string, at: real) | Evict(at: real)

  function Current(c: Config, store: Buckets, host: string, now: real): Level {
    if host in store then store[host] else Full(c, now)
  }

  function Handled(c: Config, store: Buckets, host: string, now: real): Buckets {
    store[host := After(c, Current(c, store, host, now), now)]
  }

  function Evicted(c: Config, store: Buckets, now: real): Buckets {
    map host | host in store && now - store[host].last <= c.ttl :: store[host]
  }

  function Next(c: Config, store: Buckets, e: Event, evicting: bool): Buckets {
    match e
    case Request(host, at) => Handled(c, store, host, at)
    case Evict(at) => if evicting then Evicted(c, store, at) else store
  }

  function Answer(c: Config, store: Buckets, e: Event): seq<bool> {
    match e
    case Request(host, at) => [Admits(c, Current(c, store, host, at), at)]
    case Evict(_) => []
  }

  function RunStore(c: Config, store: Buckets, es: seq<Event>, evicting: bool): Buckets {
    if es == [] then store else Next(c, RunStore(c, store, es[..|es| - 1], evicting), es[|es| - 1], evicting)
  }

  /** The answers to the requests of a run. */
  function Answers(c: Config, store: Buckets, es: seq<Event>, evicting: bool): seq<bool> {
    if es == [] then []
    else Answers(c, store, es[..|es| - 1], evicting)
         + Answer(c, RunStore(c, store, es[..|es| - 1], evicting), es[|es| - 1])
  }

  ghost predicate InTime(es: seq<Event>, start: real) {
    && (forall i :: 0 <= i < |es| ==> start <= es[i].at)
    && forall i, j :: 0 <= i < j < |es| ==> es[i].at <= es[j].at
  }

  /** At host, the evicting store has what the other has, or has dropped it after an idle ttl. */
  ghost predicate SimilarAt(c: Config, evicting: Buckets, keeping: Buckets, now: real, host: string) {
    && (host in evicting ==> host in keeping && evicting[host] == keeping[host])
    && (host in keeping ==> LevelOk(c, keeping[host], now))
    && (host in keeping && host !in evicting ==> now - keeping[host].last > c.ttl)
  }

  ghost predicate Similar(c: Config, evicting: Buckets, keeping: Buckets, now: real) {
    forall host :: SimilarAt(c, evicting, keeping, now, host)
  }

  /** A bucket idle for the ttl is full again when the ttl is long enough. */
  lemma IdleIsFull(c: Config, b: Level, now: real)
    requires Sane(c) && Gain(c, c.ttl) >= c.capacity && LevelOk(c, b, now) && now - b.last > c.ttl
    ensures Refilled(c, b, now) == c.capacity
  {
    hide Gain;
    GainAdds(c, 0.0, 0.0);
    GainGrows(c, c.ttl, now - b.last);
  }

  lemma SimilarStep(c: Config, evicting: Buckets, keeping: Buckets, now: real, e: Event)
    requires Sane(c) && Gain(c, c.ttl) >= c.capacity && Similar(c, evicting, keeping, now) && now <= e.at
    ensures Answer(c, evicting, e) == Answer(c, keeping, e)
    ensures Similar(c, Next(c, evicting, e, true), Next(c, keeping, e, false), e.at)
  {
    hide Gain;
    GainAdds(c, 0.0, 0.0);
    if e.Request? {
      assert SimilarAt(c, evicting, keeping, now, e.host);
      if e.host in keeping {
        if e.host !in evicting {
          IdleIsFull(c, keeping[e.host], e.at);
        }
        AfterOk(c, keeping[e.host], e.at);
      } else {
        AfterOk(c, Full(c, e.at), e.at);
      }
    }
    forall host
      ensures SimilarAt(c, Next(c, evicting, e, true), Next(c, keeping, e, false), e.at, host)
    {
      assert SimilarAt(c, evicting, keeping, now, host);
    }
  }

  lemma {:induction false} SimilarCore(c: Config, es: seq<Event>, start: real)
    requires Sane(c) && Gain(c, c.ttl) >= c.capacity && InTime(es, start)
    ensures Answers(c, map[], es, true) == Answers(c, map[], es, false)
    ensures Similar(c, RunStore(c, map[], es, true), RunStore(c, map[], es, false),
                    if es == [] then start else es[|es| - 1].at)
  {
    hide Gain;
    if es != [] {
      var front := es[..|es| - 1];
      SimilarCore(c, front, start);
      SimilarStep(c, RunStore(c, map[], front, true), RunStore(c, map[], front, false),
                  if front == [] then start else front[|front| - 1].at, es[|es| - 1]);
    }
  }

  /** When a bucket refills within the ttl, an evicting limiter answers every run like one that never
      evicts, and differs from it only in buckets that are full again. */
  lemma SimilarRun(c: Config, es: seq<Event>, start: real)
    requires Sane(c) && c.rate * c.ttl >= c.capacity && InTime(es, start)
    ensures Answers(c, map[], es, true) == Answers(c, map[], es, false)
    ensures Similar(c, RunStore(c, map[], es, true), RunStore(c, map[], es, false),
                    if es == [] then start else es[|es| - 1].at)
  {
    hide Answers, Gain, InTime, RunStore, Sane, Similar;
    GainIs(c, c.ttl);
    SimilarCore(c, es, start);
  }

  // ---------------------------------------------------------------- when eviction shows

  /** No run of requests and evictions can tell an evicting limiter from one that never evicts. */
  ghost predicate Unobservable(c: Config) {
    forall es: seq<Event> :: InTime(es, 0.0) ==> Answers(c, map[], es, true) == Answers(c, map[], es, false)
  }

  /** n requests of one host at one moment. */
  function Burst(host: string, at: real, n: nat): seq<Event> {
    if n == 0 then [] else Burst(host, at, n - 1) + [Request(host, at)]
  }

  lemma {:induction false} BurstInTime(host: string, at: real, n: nat)
    ensures |Burst(host, at, n)| == n && forall i :: 0 <= i < n ==> Burst(host, at, n)[i] == Request(host, at)
  {
    if n > 0 {
      BurstInTime(host, at, n - 1);
    }
  }

  lemma {:induction false} RunJoin(c: Config, store: Buckets, a: seq<Event>, b: seq<Event>, evicting: bool)
    ensures RunStore(c, store, a + b, evicting) == RunStore(c, RunStore(c, store, a, evicting), b, evicting)
    decreases |b|
  {
    hide Gain;
    if b == [] {
      assert a + b == a;
    } else {
      RunJoin(c, store, a, b[..|b| - 1], evicting);
      assert (a + b)[..|a + b| - 1] == a + b[..|b| - 1];
    }
  }

  function Count(n: nat): real {
    if n == 0 then 0.0 else Count(n - 1) + 1.0
  }

  /** The whole part of a non-negative number. */
  lemma WholePart(x: real) returns (n: nat)
    requires 0.0 <= x
    ensures Count(n) <= x < Count(n) + 1.0
    decreases x
  {
    if x < 1.0 {
      n := 0;
    } else {
      n := WholePart(x - 1.0);
      n := n + 1;
    }
  }

  lemma {:induction false} CountNatural(n: nat)
    ensures 0.0 <= Count(n) && (n >= 1 ==> 1.0 <= Count(n))
  {
    if n > 0 {
      CountNatural(n - 1);
    }
  }

  /** One more request at the moment of the last one takes one more token. */
  lemma SpendOne(c: Config, b: Level, at: real)
    requires b.last == at && 1.0 <= b.tokens <= c.capacity
    ensures Admits(c, b, at) && After(c, b, at) == Level(b.tokens - 1.0, at)
  {
    hide Gain;
    GainAdds(c, 0.0, 0.0);
  }

  /** A burst spends one token a request while whole tokens last. */
  lemma {:induction false} BurstSpends(c: Config, store: Buckets, host: string, at: real, n: nat, evicting: bool)
    requires n >= 1 && Count(n) <= Refilled(c, Current(c, store, host, at), at)
    ensures RunStore(c, store, Burst(host, at, n), evicting)
         == store[host := Level(Refilled(c, Current(c, store, host, at), at) - Count(n), at)]
  {
    hide Gain;
    var es := Burst(host, at, n);
    var full := Refilled(c, Current(c, store, host, at), at);
    assert es[..|es| - 1] == Burst(host, at, n - 1);
    CountNatural(n - 1);
    if n > 1 {
      BurstSpends(c, store, host, at, n - 1, evicting);
      SpendOne(c, Level(full - Count(n - 1), at), at);
    } else {
      assert RunStore(c, store, [], evicting) == store;
    }
  }

  lemma WaitFor(c: Config, need: real) returns (w: real)
    requires 0.0 < c.rate && 0.0 <= need
    ensures 0.0 <= w && (0.0 < need ==> 0.0 < w) && Gain(c, w) == need
  {
    w := need / c.rate;
    assert w * c.rate == need;
  }

  /** A run whose events all lie between 0 and last. */
  ghost predicate RunTo(es: seq<Event>, last: real) {
    InTime(es, 0.0) && 0.0 <= last && forall i :: 0 <= i < |es| ==> es[i].at <= last
  }

  lemma RunFurther(es: seq<Event>, last: real, more: seq<Event>, at: real)
    requires RunTo(es, last) && last <= at && forall i :: 0 <= i < |more| ==> more[i].at == at
    ensures RunTo(es + more, at)
  {
  }

  /** The run so far leaves the two limiters with different answers to one more request. */
  lemma Tells(c: Config, es: seq<Event>, last: real, host: string, at: real)
    requires RunTo(es, last) && last <= at
    requires Admits(c, Current(c, RunStore(c, map[], es, true), host, at), at)
          != Admits(c, Current(c, RunStore(c, map[], es, false), host, at), at)
    ensures !Unobservable(c)
  {
    var r := Request(host, at);
    RunFurther(es, last, [r], at);
    assert (es + [r])[..|es|] == es;
    var a, b := Answers(c, map[], es + [r], true), Answers(c, map[], es + [r], false);
    assert a[|a| - 1] != b[|b| - 1];
  }

  /** A run without evictions, after which both limiters have the one bucket b. */
  ghost predicate LeadsTo(c: Config, es: seq<Event>, host: string, b: Level) {
    && RunTo(es, b.last)
    && RunStore(c, map[], es, true) == map[host := b] && RunStore(c, map[], es, false) == map[host := b]
  }

  /** As many requests at time 0 as there are whole tokens. */
  lemma Drained(c: Config, host: string) returns (es: seq<Event>, b: Level)
    requires Sane(c) && 1.0 <= c.capacity
    ensures LeadsTo(c, es, host, b) && 0.0 <= b.tokens < 1.0
  {
    hide Gain;
    GainAdds(c, 0.0, 0.0);
    var n := WholePart(c.capacity);
    CountNatural(n);
    assert n >= 1;
    es := Burst(host, 0.0, n);
    BurstInTime(host, 0.0, n);
    BurstSpends(c, map[], host, 0.0, n, true);
    BurstSpends(c, map[], host, 0.0, n, false);
    b := Level(c.capacity - Count(n), 0.0);
  }

  /** One more request, made when exactly one token is there, empties the bucket. */
  lemma Emptied(c: Config, host: string, es: seq<Event>, b: Level, at: real)
    requires 1.0 <= c.capacity && LeadsTo(c, es, host, b) && b.last <= at
    requires b.tokens + Gain(c, at - b.last) == 1.0
    ensures LeadsTo(c, es + [Request(host, at)], host, Level(0.0, at))
  {
    hide Gain;
    var r := Request(host, at);
    RunFurther(es, b.last, [r], at);
    assert (es + [r])[..|es|] == es;
    assert map[host := b][host := Level(0.0, at)] == map[host := Level(0.0, at)];
  }

  /** A run after which the bucket is too low to be full again when it is evicted. */
  lemma LowBucket(c: Config, host: string) returns (es: seq<Event>, b: Level)
    requires Sane(c) && 1.0 <= c.capacity && Gain(c, c.ttl) < c.capacity
    ensures LeadsTo(c, es, host, b) && 0.0 <= b.tokens < 1.0 && b.tokens + Gain(c, c.ttl) < c.capacity
  {
    hide Gain;
    es, b := Drained(c, host);
    if c.rate > 0.0 {
      var w := WaitFor(c, 1.0 - b.tokens);
      assert (b.last + w) - b.last == w;
      Emptied(c, host, es, b, b.last + w);
      es, b := es + [Request(host, b.last + w)], Level(0.0, b.last + w);
    } else {
      NoGain(c, c.ttl);
    }
  }

  lemma NoGain(c: Config, t: real)
    requires c.rate == 0.0
    ensures Gain(c, t) == 0.0
  {
  }

  /** A moment just after the ttl at which the bucket is still not full. */
  lemma EvictionTime(c: Config, b: Level) returns (at: real)
    requires Sane(c) && b.tokens + Gain(c, c.ttl) < c.capacity
    ensures b.last + c.ttl < at && b.tokens + Gain(c, at - b.last) < c.capacity
  {
    hide Gain;
    if c.rate > 0.0 {
      var d := WaitFor(c, (c.capacity - b.tokens - Gain(c, c.ttl)) / 2.0);
      at := b.last + c.ttl + d;
      GainAdds(c, c.ttl, d);
      assert at - b.last == c.ttl + d;
    } else {
      at := b.last + c.ttl + 1.0;
      NoGain(c, c.ttl);
      NoGain(c, at - b.last);
    }
  }

  /** Two buckets below one token, one lower than the other, answer differently after a wait. */
  lemma WaitTells(c: Config, host: string, es: seq<Event>, at: real, renewed: Level, kept: Level)
    requires Sane(c) && 1.0 <= c.capacity && RunTo(es, at) && 0.0 < c.rate
    requires renewed.last == kept.last == at && kept.tokens < renewed.tokens < 1.0
    requires RunStore(c, map[], es, true) == map[host := renewed]
    requires RunStore(c, map[], es, false) == map[host := kept]
    ensures !Unobservable(c)
  {
    hide Gain;
    var w := WaitFor(c, 1.0 - renewed.tokens);
    assert (at + w) - at == w;
    assert Refilled(c, renewed, at + w) == 1.0;
    assert Refilled(c, kept, at + w) < 1.0;
    Tells(c, es, at, host, at + w);
  }

  /** A burst of the tokens that the kept bucket has. */
  lemma BurstBoth(c: Config, host: string, es: seq<Event>, b: Level, at: real, x: real, m: nat)
    requires Sane(c) && RunTo(es, at) && m >= 1
    requires RunStore(c, map[], es, true) == map[] && RunStore(c, map[], es, false) == map[host := b]
    requires x == b.tokens + Gain(c, at - b.last) && Count(m) <= x < c.capacity
    ensures RunTo(es + Burst(host, at, m), at)
    ensures RunStore(c, map[], es + Burst(host, at, m), true) == map[host := Level(c.capacity - Count(m), at)]
    ensures RunStore(c, map[], es + Burst(host, at, m), false) == map[host := Level(x - Count(m), at)]
  {
    hide Gain;
    GainAdds(c, 0.0, 0.0);
    var burst := Burst(host, at, m);
    BurstInTime(host, at, m);
    RunFurther(es, at, burst, at);
    RunJoin(c, map[], es, burst, true);
    RunJoin(c, map[], es, burst, false);
    BurstSpends(c, map[], host, at, m, true);
    BurstSpends(c, map[host := b], host, at, m, false);
    assert map[host := b][host := Level(x - Count(m), at)] == map[host := Level(x - Count(m), at)];
  }

  /** From a bucket evicted while not full, some later request tells the two limiters apart. */
  lemma Diverges(c: Config, host: string, es: seq<Event>, b: Level, at: real)
    requires Sane(c) && 1.0 <= c.capacity && RunTo(es, at) && b.last <= at && 0.0 <= b.tokens < 1.0
    requires RunStore(c, map[], es, true) == map[] && RunStore(c, map[], es, false) == map[host := b]
    requires b.tokens + Gain(c, at - b.last) < c.capacity
    ensures !Unobservable(c)
  {
    hide Gain;
    GainAdds(c, 0.0, 0.0);
    GainGrows(c, 0.0, at - b.last);
    var x := b.tokens + Gain(c, at - b.last);
    var m := WholePart(x);
    if m == 0 {
      Tells(c, es, at, host, at);
    } else {
      CountNatural(m);
      BurstBoth(c, host, es, b, at, x, m);
      if c.rate == 0.0 {
        NoGain(c, at - b.last);
      }
      if c.capacity - Count(m) >= 1.0 {
        Tells(c, es + Burst(host, at, m), at, host, at);
      } else {
        WaitTells(c, host, es + Burst(host, at, m), at, Level(c.capacity - Count(m), at), Level(x - Count(m), at));
      }
    }
  }

  /** Nothing is ever admitted by a bucket that cannot hold one token. */
  lemma {:induction false} SmallBucketDenies(c: Config, es: seq<Event>, evicting: bool)
    requires c.capacity < 1.0
    ensures Answers(c, map[], es, evicting) == Answers(c, map[], es, !evicting)
    decreases |es|
  {
    if es != [] {
      SmallBucketDenies(c, es[..|es| - 1], evicting);
    }
  }

  lemma RefillHides(c: Config)
    requires Sane(c) && Gain(c, c.ttl) >= c.capacity
    ensures Unobservable(c)
  {
    hide Answers, Gain, Similar;
    forall es: seq<Event> | InTime(es, 0.0)
      ensures Answers(c, map[], es, true) == Answers(c, map[], es, false)
    {
      SimilarCore(c, es, 0.0);
    }
  }

  lemma SmallHides(c: Config)
    requires c.capacity < 1.0
    ensures Unobservable(c)
  {
    hide Answers, Gain;
    forall es: seq<Event> | InTime(es, 0.0)
      ensures Answers(c, map[], es, true) == Answers(c, map[], es, false)
    {
      SmallBucketDenies(c, es, true);
    }
  }

  lemma ShortTtlShows(c: Config)
    requires Sane(c) && 1.0 <= c.capacity && Gain(c, c.ttl) < c.capacity
    ensures !Unobservable(c)
  {
    hide Gain, Unobservable;
    var es, b := LowBucket(c, "");
    var at := EvictionTime(c, b);
    var e := Evict(at);
    RunFurther(es, b.last, [e], at);
    assert (es + [e])[..|es|] == es;
    assert Evicted(c, map["" := b], at) == map[];
    Diverges(c, "", es + [e], b, at);
  }

  /** Eviction is unobservable exactly when a bucket refills completely within the ttl, or can never
      admit anything. */
  lemma EvictionUnobservableIff(c: Config)
    requires Sane(c)
    ensures Unobservable(c) <==> c.rate * c.ttl >= c.capacity || c.capacity < 1.0
  {
    hide Gain, Unobservable;
    GainIs(c, c.ttl);
    if Gain(c, c.ttl) >= c.capacity {
      RefillHides(c);
    } else if c.capacity < 1.0 {
      SmallHides(c);
    } else {
      ShortTtlShows(c);
    }
  }
}
