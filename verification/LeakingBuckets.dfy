/** The leaking bucket limiter over exact reals, and how it compares with the token bucket of the same
    capacity and rate.  The slack that the capacity test allows is a parameter: the limiter runs with
    EPSILON, and the comparison asks what a slack costs. */
module LeakingBuckets {
  import opened Basics
  import opened TokenBuckets

  const EPSILON: real := 0.000000001

  /** How full the bucket is, and the time of the last drain, which is also the time last seen. */
  datatype Water = Water(level: real, last: real)

  // ---------------------------------------------------------------- one bucket

  /** What is left after the leak, cut to the capacity. */
  function Leaked(c: Config, w: Water, now: real): real {
    var left := w.level - Gain(c, now - w.last);
    MinReal(if left < 0.0 then 0.0 else left, c.capacity)
  }

  function Fits(c: Config, slack: real, w: Water, now: real): bool {
    Leaked(c, w, now) + 1.0 <= c.capacity + slack
  }

  function Poured(c: Config, slack: real, w: Water, now: real): Water {
    Water(Leaked(c, w, now) + if Fits(c, slack, w, now) then 1.0 else 0.0, now)
  }

  function RunWater(c: Config, slack: real, w: Water, times: seq<real>): Water {
    if times == [] then w
    else Poured(c, slack, RunWater(c, slack, w, times[..|times| - 1]), times[|times| - 1])
  }

  /** The answers of a leaking bucket to a run of requests. */
  function Replies(c: Config, slack: real, w: Water, times: seq<real>): seq<bool> {
    if times == [] then []
    else Replies(c, slack, w, times[..|times| - 1])
         + [Fits(c, slack, RunWater(c, slack, w, times[..|times| - 1]), times[|times| - 1])]
  }

  /** The answers of a token bucket to a run of requests. */
  function TokenReplies(c: Config, b: Level, times: seq<real>): seq<bool> {
    if times == [] then []
    else TokenReplies(c, b, times[..|times| - 1])
         + [Admits(c, RunBucket(c, b, times[..|times| - 1]), times[|times| - 1])]
  }

  function Accepted(replies: seq<bool>): nat {
    if replies == [] then 0
    else Accepted(replies[..|replies| - 1]) + if replies[|replies| - 1] then 1 else 0
  }

  lemma {:induction false} AcceptedIs(replies: seq<bool>)
    ensures Accepted(replies) == |set i | 0 <= i < |replies| && replies[i]|
  {
    if replies != [] {
      var n := |replies| - 1;
      var front := set i | 0 <= i < n && replies[i];
      AcceptedIs(replies[..n]);
      assert (set i | 0 <= i < n && replies[..n][i]) == front;
      assert (set i | 0 <= i < |replies| && replies[i]) == front + if replies[n] then {n} else {};
    }
  }

  /** What a slack has let through in n requests. */
  function Spill(n: nat, slack: real): real {
    n as real * slack
  }

  lemma SpillAdds(n: nat, slack: real)
    ensures Spill(0, slack) == 0.0 && Spill(n + 1, slack) == Spill(n, slack) + slack
  {
    assert (n + 1) as real == n as real + 1.0;
  }

  lemma SpillIs(n: nat, slack: real)
    ensures n as real - Spill(n, slack) == n as real * (1.0 - slack)
  {
  }

  ghost predicate WaterOk(c: Config, slack: real, w: Water) {
    0.0 <= w.level <= c.capacity + slack
  }

  /** The level never goes above the capacity and the slack. */
  lemma {:induction false} RunWaterOk(c: Config, slack: real, w: Water, times: seq<real>)
    requires Sane(c) && 0.0 <= slack && WaterOk(c, slack, w)
    ensures WaterOk(c, slack, RunWater(c, slack, w, times))
    ensures RunWater(c, slack, w, times).last == if times == [] then w.last else times[|times| - 1]
  {
    hide Gain;
    if times != [] {
      RunWaterOk(c, slack, w, times[..|times| - 1]);
    }
  }

  lemma FirstPour(c: Config, slack: real, w: Water, now: real)
    requires Sane(c) && 0.0 <= slack && WaterOk(c, slack, w) && w.last <= now
    ensures (if Fits(c, slack, w, now) then 1.0 - slack else 0.0)
         <= MinReal(Poured(c, slack, w, now).level, c.capacity) + Gain(c, 0.0)
  {
    hide Gain;
    GainAdds(c, 0.0, 0.0);
  }

  lemma WaterStep(c: Config, slack: real, w: Water, now: real)
    requires Sane(c) && 0.0 <= slack && WaterOk(c, slack, w) && w.last <= now
    ensures MinReal(w.level, c.capacity) + (if Fits(c, slack, w, now) then 1.0 - slack else 0.0)
         <= MinReal(Poured(c, slack, w, now).level, c.capacity) + Gain(c, now - w.last)
  {
    hide Gain;
    GainAdds(c, 0.0, 0.0);
    GainGrows(c, 0.0, now - w.last);
  }

  /** The requests let in are covered by a full bucket, the leak since the first request, and the
      slack that each of them was given. */
  lemma {:induction false} WaterAccount(c: Config, slack: real, w: Water, times: seq<real>)
    requires Sane(c) && 0.0 <= slack && WaterOk(c, slack, w) && Ordered(times, w.last) && times != []
    ensures Accepted(Replies(c, slack, w, times)) as real
         <= MinReal(RunWater(c, slack, w, times).level, c.capacity)
            + Gain(c, times[|times| - 1] - times[0]) + Spill(Accepted(Replies(c, slack, w, times)), slack)
  {
    hide Gain, Spill, Fits, Poured;
    var front, now := times[..|times| - 1], times[|times| - 1];
    var mid := RunWater(c, slack, w, front);
    var n := Accepted(Replies(c, slack, w, front));
    var replies := Replies(c, slack, w, times);
    assert replies[..|replies| - 1] == Replies(c, slack, w, front);
    RunWaterOk(c, slack, w, front);
    SpillAdds(n, slack);
    if front == [] {
      FirstPour(c, slack, w, now);
    } else {
      WaterAccount(c, slack, w, front);
      WaterStep(c, slack, mid, now);
      GainAdds(c, front[|front| - 1] - times[0], now - mid.last);
      assert now - times[0] == (front[|front| - 1] - times[0]) + (now - mid.last);
    }
  }

  /** Over any stretch from t1 to t2, from any level, the requests let in cost at least 1 - slack each
      and together no more than capacity + rate * (t2 - t1). */
  lemma LeakBound(c: Config, slack: real, w: Water, times: seq<real>)
    requires Sane(c) && 0.0 <= slack && WaterOk(c, slack, w) && Ordered(times, w.last) && times != []
    ensures var n := Accepted(Replies(c, slack, w, times));
      n as real * (1.0 - slack) <= c.capacity + c.rate * (times[|times| - 1] - times[0])
  {
    hide Accepted, Gain, Ordered, Replies, RunWater, Sane, Spill, WaterOk;
    WaterAccount(c, slack, w, times);
    GainIs(c, times[|times| - 1] - times[0]);
    SpillIs(Accepted(Replies(c, slack, w, times)), slack);
  }

  /** The level is what was there less what has leaked, never below nothing nor above the capacity; a
      request fits when one more stays within capacity and slack, and then adds one. */
  lemma LevelAfter(c: Config, slack: real, w: Water, now: real)
    requires Sane(c) && w.last <= now
    ensures var left := w.level - c.rate * (now - w.last);
      var held := if left < 0.0 then 0.0 else if left > c.capacity then c.capacity else left;
      && (Fits(c, slack, w, now) <==> held + 1.0 <= c.capacity + slack)
      && Poured(c, slack, w, now) == Water(if held + 1.0 <= c.capacity + slack then held + 1.0 else held, now)
  {
    hide Fits, Gain, Poured, Sane;
    GainIs(c, now - w.last);
    LevelWith(c, slack, w, now, c.rate * (now - w.last));
  }

  lemma LevelWith(c: Config, slack: real, w: Water, now: real, flow: real)
    requires Sane(c) && flow == Gain(c, now - w.last)
    ensures var left := w.level - flow;
      var held := if left < 0.0 then 0.0 else if left > c.capacity then c.capacity else left;
      && (Fits(c, slack, w, now) <==> held + 1.0 <= c.capacity + slack)
      && Poured(c, slack, w, now) == Water(if held + 1.0 <= c.capacity + slack then held + 1.0 else held, now)
  {
    hide Gain;
  }

  /** Left alone, a full bucket with the limiter's own slack of one in a billion lets a request in exactly
      when it can hold so much at all and rate * (t2 - t1) has reached that much. */
  lemma FullFitsIff(c: Config, start: real, now: real)
    requires Sane(c) && start <= now
    ensures Fits(c, EPSILON, Water(c.capacity, start), now)
       <==> c.capacity >= 0.999_999_999 && c.rate * (now - start) >= 0.999_999_999
  {
    hide Gain;
    GainIs(c, now - start);
    GainAdds(c, 0.0, 0.0);
    GainGrows(c, 0.0, now - start);
  }

  // ---------------------------------------------------------------- against the token bucket

  /** The water in one bucket is what is missing from the other. */
  predicate Mirrors(c: Config, w: Water, b: Level) {
    w.last == b.last && w.level == c.capacity - b.tokens
  }

  lemma MirrorLeaked(c: Config, w: Water, b: Level, now: real)
    requires Sane(c) && LevelOk(c, b, now) && Mirrors(c, w, b)
    ensures Leaked(c, w, now) == c.capacity - Refilled(c, b, now)
  {
    hide Gain;
    GainAdds(c, 0.0, 0.0);
    GainGrows(c, 0.0, now - b.last);
  }

  /** Without slack the two answer alike on every run, and stay mirrors of each other. */
  lemma {:induction false} MirrorRun(c: Config, w: Water, b: Level, times: seq<real>)
    requires Sane(c) && LevelOk(c, b, b.last) && Mirrors(c, w, b) && Ordered(times, b.last)
    ensures Replies(c, 0.0, w, times) == TokenReplies(c, b, times)
    ensures Mirrors(c, RunWater(c, 0.0, w, times), RunBucket(c, b, times))
  {
    hide Gain, Leaked, Refilled;
    if times != [] {
      var front := times[..|times| - 1];
      MirrorRun(c, w, b, front);
      RunOk(c, b, front);
      MirrorLeaked(c, RunWater(c, 0.0, w, front), RunBucket(c, b, front), times[|times| - 1]);
    }
  }

  /** From fresh buckets, no run of requests tells the two limiters apart. */
  ghost predicate Alike(c: Config, slack: real) {
    forall times: seq<real> :: Ordered(times, 0.0) ==>
      Replies(c, slack, Water(0.0, 0.0), times) == TokenReplies(c, Full(c, 0.0), times)
  }

  /** Levels stay whole numbers: nothing leaks, or nothing is ever poured. */
  predicate Lumpy(c: Config) {
    c.rate == 0.0 || c.capacity < 1.0
  }

  lemma {:induction false} CountGrows(k: nat, n: nat)
    requires k < n
    ensures Count(k) + 1.0 <= Count(n)
  {
    if k < n - 1 {
      CountGrows(k, n - 1);
    }
  }

  lemma LumpyDrain(c: Config, w: Water, now: real)
    requires Sane(c) && w.last <= now && 0.0 <= w.level <= c.capacity
    requires c.rate == 0.0 || w.level == 0.0
    ensures Leaked(c, w, now) == w.level
  {
    hide Gain;
    GainAdds(c, 0.0, 0.0);
    GainGrows(c, 0.0, now - w.last);
    if c.rate == 0.0 {
      NoGain(c, now - w.last);
    }
  }

  /** A slack that does not reach the next whole number changes nothing while levels are whole. */
  lemma {:induction false} LumpyRun(c: Config, slack: real, n: nat, times: seq<real>) returns (k: nat)
    requires Sane(c) && Lumpy(c) && 0.0 <= slack && Ordered(times, 0.0)
    requires Count(n) <= c.capacity && c.capacity + slack < Count(n) + 1.0
    ensures k <= n && RunWater(c, slack, Water(0.0, 0.0), times).level == Count(k)
    ensures Mirrors(c, RunWater(c, slack, Water(0.0, 0.0), times), RunBucket(c, Full(c, 0.0), times))
    ensures Replies(c, slack, Water(0.0, 0.0), times) == TokenReplies(c, Full(c, 0.0), times)
  {
    hide Gain, Leaked, Refilled;
    k := 0;
    if times != [] {
      var front := times[..|times| - 1];
      var w, b := RunWater(c, slack, Water(0.0, 0.0), front), RunBucket(c, Full(c, 0.0), front);
      k := LumpyRun(c, slack, n, front);
      RunOk(c, Full(c, 0.0), front);
      MirrorLeaked(c, w, b, times[|times| - 1]);
      CountNatural(k);
      CountNatural(n);
      if k < n {
        CountGrows(k, n);
      }
      LumpyDrain(c, w, times[|times| - 1]);
      if k < n {
        k := k + 1;
      }
    }
  }

  /** A burst at the start fills the bucket and empties the other one. */
  lemma {:induction false} BurstFills(c: Config, slack: real, n: nat)
    requires Sane(c) && 0.0 <= slack && Count(n) <= c.capacity
    ensures RunWater(c, slack, Water(0.0, 0.0), Repeat(0.0, n)) == Water(Count(n), 0.0)
    ensures RunBucket(c, Full(c, 0.0), Repeat(0.0, n)) == Level(c.capacity - Count(n), 0.0)
  {
    hide Gain;
    GainAdds(c, 0.0, 0.0);
    if n > 0 {
      CountNatural(n - 1);
      BurstFills(c, slack, n - 1);
      assert Repeat(0.0, n)[..n - 1] == Repeat(0.0, n - 1);
    }
  }

  /** One more request on which the answers differ. */
  lemma OneMoreTells(c: Config, slack: real, times: seq<real>, at: real)
    requires Ordered(times + [at], 0.0)
    requires Fits(c, slack, RunWater(c, slack, Water(0.0, 0.0), times), at)
          != Admits(c, RunBucket(c, Full(c, 0.0), times), at)
    ensures !Alike(c, slack)
  {
    var all := times + [at];
    assert all[..|all| - 1] == times;
    var a, b := Replies(c, slack, Water(0.0, 0.0), all), TokenReplies(c, Full(c, 0.0), all);
    assert a[|a| - 1] != b[|b| - 1];
  }

  /** The slack reaches the next whole number: the burst may have one request too many. */
  lemma BurstTells(c: Config, slack: real, n: nat)
    requires Sane(c) && 0.0 <= slack && Count(n) <= c.capacity < Count(n) + 1.0 <= c.capacity + slack
    ensures !Alike(c, slack)
  {
    hide Gain;
    GainAdds(c, 0.0, 0.0);
    CountNatural(n);
    BurstFills(c, slack, n);
    OneMoreTells(c, slack, Repeat(0.0, n), 0.0);
  }

  /** Otherwise wait until the level has leaked to one slack above the last that fits. */
  lemma WaitShows(c: Config, slack: real, n: nat)
    requires Sane(c) && 0.0 < slack && 0.0 < c.rate && 1.0 <= c.capacity
    requires Count(n) <= c.capacity && c.capacity + slack < Count(n) + 1.0
    ensures !Alike(c, slack)
  {
    hide Gain;
    BurstFills(c, slack, n);
    var at := WaitFor(c, Count(n) - (c.capacity - 1.0 + slack));
    assert at - 0.0 == at;
    OneMoreTells(c, slack, Repeat(0.0, n), at);
  }

  /** The leaking bucket answers like the token bucket on every run exactly when it has no slack, or
      when levels are whole numbers and the slack does not reach the next one. */
  lemma AlikeIff(c: Config, slack: real) returns (n: nat)
    requires Sane(c) && 0.0 <= slack
    ensures Count(n) <= c.capacity < Count(n) + 1.0
    ensures Alike(c, slack) <==> slack == 0.0 || (Lumpy(c) && c.capacity + slack < Count(n) + 1.0)
  {
    hide Gain;
    n := WholePart(c.capacity);
    if slack == 0.0 {
      forall times: seq<real> | Ordered(times, 0.0)
        ensures Replies(c, slack, Water(0.0, 0.0), times) == TokenReplies(c, Full(c, 0.0), times)
      {
        MirrorRun(c, Water(0.0, 0.0), Full(c, 0.0), times);
      }
    } else if Count(n) + 1.0 <= c.capacity + slack {
      BurstTells(c, slack, n);
    } else if Lumpy(c) {
      forall times: seq<real> | Ordered(times, 0.0)
        ensures Replies(c, slack, Water(0.0, 0.0), times) == TokenReplies(c, Full(c, 0.0), times)
      {
        var _ := LumpyRun(c, slack, n, times);
      }
    } else {
      WaitShows(c, slack, n);
    }
  }

  /** With its own EPSILON and the default configuration, the leaking bucket is not a token bucket: a
      request can arrive when only almost a whole token would have come back. */
  lemma DefaultsDiffer()
    ensures !Alike(Config(2.0, 1.0, 120.0), EPSILON)
  {
    var n := AlikeIff(Config(2.0, 1.0, 120.0), EPSILON);
  }

  // ---------------------------------------------------------------- the store

  type Waters = map<string, Water>

  datatype Arrival = Arrival(host: string, at: real)

  /** The bucket a request meets: an expired one is replaced by an empty one. */
  function Meets(c: Config, store: Waters, host: string, now: real): Water {
    if host in store && now - store[host].last <= c.ttl then store[host] else Water(0.0, now)
  }

  function NextWaters(c: Config, slack: real, store: Waters, a: Arrival): Waters {
    store[a.host := Poured(c, slack, Meets(c, store, a.host, a.at), a.at)]
  }

  function RunWaters(c: Config, slack: real, store: Waters, arrivals: seq<Arrival>): Waters {
    if arrivals == [] then store
    else NextWaters(c, slack, RunWaters(c, slack, store, arrivals[..|arrivals| - 1]), arrivals[|arrivals| - 1])
  }

  function WaterAnswers(c: Config, slack: real, store: Waters, arrivals: seq<Arrival>): seq<bool> {
    if arrivals == [] then []
    else
      var before := RunWaters(c, slack, store, arrivals[..|arrivals| - 1]);
      var a := arrivals[|arrivals| - 1];
      WaterAnswers(c, slack, store, arrivals[..|arrivals| - 1])
      + [Fits(c, slack, Meets(c, before, a.host, a.at), a.at)]
  }

  /** The same requests to a token limiter that sweeps its store before each of them. */
  function Swept(arrivals: seq<Arrival>): seq<Event> {
    if arrivals == [] then []
    else
      var a := arrivals[|arrivals| - 1];
      Swept(arrivals[..|arrivals| - 1]) + [Evict(a.at)] + [Request(a.host, a.at)]
  }

  ghost predicate ArriveInTime(arrivals: seq<Arrival>, start: real) {
    && (forall i :: 0 <= i < |arrivals| ==> start <= arrivals[i].at)
    && forall i, j :: 0 <= i < j < |arrivals| ==> arrivals[i].at <= arrivals[j].at
  }

  /** A host has mirrored buckets in the two stores, or its water has expired. */
  ghost predicate MirrorAt(c: Config, waters: Waters, store: Buckets, now: real, host: string) {
    && (host in store ==> host in waters && Mirrors(c, waters[host], store[host]) && LevelOk(c, store[host], now))
    && (host in waters ==> waters[host].last <= now)
    && (host in waters && host !in store ==> now - waters[host].last > c.ttl)
  }

  ghost predicate MirrorStores(c: Config, waters: Waters, store: Buckets, now: real) {
    forall host :: MirrorAt(c, waters, store, now, host)
  }

  lemma MirrorStep(c: Config, waters: Waters, store: Buckets, now: real, a: Arrival)
    requires Sane(c) && MirrorStores(c, waters, store, now) && now <= a.at
    ensures var swept := Evicted(c, store, a.at);
      && Fits(c, 0.0, Meets(c, waters, a.host, a.at), a.at) == Admits(c, Current(c, swept, a.host, a.at), a.at)
      && MirrorStores(c, NextWaters(c, 0.0, waters, a), Handled(c, swept, a.host, a.at), a.at)
  {
    hide Gain, Leaked, Refilled;
    var swept := Evicted(c, store, a.at);
    var w, b := Meets(c, waters, a.host, a.at), Current(c, swept, a.host, a.at);
    assert MirrorAt(c, waters, store, now, a.host);
    assert Mirrors(c, w, b) && LevelOk(c, b, a.at);
    MirrorLeaked(c, w, b, a.at);
    AfterOk(c, b, a.at);
    forall host
      ensures MirrorAt(c, NextWaters(c, 0.0, waters, a), Handled(c, swept, a.host, a.at), a.at, host)
    {
      assert MirrorAt(c, waters, store, now, host);
    }
  }

  /** Without slack, the leaking limiter with its expiry on access answers every run of requests like
      the token limiter whose sweep runs before each request. */
  lemma {:induction false} LimitersAgree(c: Config, arrivals: seq<Arrival>)
    requires Sane(c) && ArriveInTime(arrivals, 0.0)
    ensures WaterAnswers(c, 0.0, map[], arrivals) == Answers(c, map[], Swept(arrivals), true)
    ensures MirrorStores(c, RunWaters(c, 0.0, map[], arrivals), RunStore(c, map[], Swept(arrivals), true),
                         if arrivals == [] then 0.0 else arrivals[|arrivals| - 1].at)
  {
    hide Gain, Admits, Fits, Poured, After, Evicted;
    if arrivals != [] {
      var front, a := arrivals[..|arrivals| - 1], arrivals[|arrivals| - 1];
      LimitersAgree(c, front);
      var es := Swept(front);
      var all := Swept(arrivals);
      assert all[..|all| - 1] == es + [Evict(a.at)];
      assert (es + [Evict(a.at)])[..|es|] == es;
      MirrorStep(c, RunWaters(c, 0.0, map[], front), RunStore(c, map[], es, true),
                 if front == [] then 0.0 else front[|front| - 1].at, a);
    }
  }

  // ---------------------------------------------------------------- objects

  class Bucket {
    const config: Config
    var level: real
    var lastDrain: real
    var lastSeen: real

    constructor (config: Config, now: real)
      ensures this.config == config && Valid() && View() == Water(0.0, now)
    {
      this.config := config;
      level, lastDrain, lastSeen := 0.0, now, now;
    }

    predicate Valid()
      reads this
    {
      lastSeen == lastDrain
    }

    function View(): Water
      reads this
    {
      Water(level, lastDrain)
    }

    method Allow(now: real) returns (ok: bool)
      requires Valid()
      modifies this
      ensures Valid() && View() == Poured(config, EPSILON, old(View()), now)
      ensures ok == Fits(config, EPSILON, old(View()), now)
    {
      hide Gain;
      var leaked := Gain(config, now - lastDrain);
      lastDrain := now;
      lastSeen := now;
      level := if level - leaked < 0.0 then 0.0 else level - leaked;
      if level > config.capacity {
        level := config.capacity;
      }
      if level + 1.0 > config.capacity + EPSILON {
        return false;
      } else {
        level := level + 1.0;
        return true;
      }
    }
  }

  class Limiter {
    const config: Config
    var store: map<string, Bucket>

    constructor (config: Config)
      ensures this.config == config && Valid() && View() == map[] && Objects() == {}
    {
      this.config := config;
      store := map[];
    }

    ghost function Objects(): set<Bucket>
      reads this
    {
      set host | host in store :: store[host]
    }

    ghost predicate OwnBucket(host: string, other: string)
      reads this
    {
      host in store && other in store && store[host] == store[other] ==> host == other
    }

    ghost predicate BucketOk(host: string)
      reads this, Objects()
    {
      host in store ==> store[host].config == config && store[host].Valid()
    }

    /** Every host has a bucket of its own, configured like the limiter. */
    ghost predicate Valid()
      reads this, Objects()
    {
      (forall host, other :: OwnBucket(host, other)) && (forall host :: BucketOk(host))
    }

    ghost function View(): Waters
      reads this, Objects()
    {
      map host | host in store :: store[host].View()
    }

    /** The bucket of a host, made anew when there is none or the one there has expired. */
    method GetOrCreate(host: string, now: real) returns (bucket: Bucket)
      requires Valid()
      modifies this
      ensures Valid() && host in store && store[host] == bucket
      ensures View() == old(View())[host := Meets(config, old(View()), host, now)]
      ensures fresh(Objects() - old(Objects()))
    {
      assert BucketOk(host);
      if host in store && now - store[host].lastSeen <= config.ttl {
        bucket := store[host];
      } else {
        bucket := new Bucket(config, now);
        store := store[host := bucket];
      }
      forall h, other
        ensures OwnBucket(h, other)
      {
        assert old(OwnBucket(h, other));
      }
      forall h
        ensures BucketOk(h)
      {
        assert old(BucketOk(h));
      }
    }

    /** Ask the bucket of a host. */
    method AskBucket(host: string, bucket: Bucket, now: real) returns (ok: bool)
      requires Valid() && host in store && store[host] == bucket
      modifies bucket
      ensures Valid()
      ensures View() == old(View())[host := Poured(config, EPSILON, old(View())[host], now)]
      ensures ok == Fits(config, EPSILON, old(View())[host], now)
    {
      hide Gain;
      assert BucketOk(host);
      ok := bucket.Allow(now);
      forall h, other
        ensures OwnBucket(h, other)
      {
        assert old(OwnBucket(h, other));
      }
      forall h
        ensures BucketOk(h)
      {
        assert old(BucketOk(h)) && OwnBucket(h, host);
      }
      forall h | h in store && h != host
        ensures View()[h] == old(View())[h]
      {
        assert OwnBucket(h, host);
      }
    }

    /** One request, as one step. */
    method Handle(host: string, now: real) returns (ok: bool)
      requires Valid()
      modifies this, Objects()
      ensures Valid() && fresh(Objects() - old(Objects()))
      ensures View() == NextWaters(config, EPSILON, old(View()), Arrival(host, now))
      ensures ok == Fits(config, EPSILON, Meets(config, old(View()), host, now), now)
    {
      hide Gain, Fits, Leaked;
      var bucket := GetOrCreate(host, now);
      ok := AskBucket(host, bucket, now);
    }
  }
}
