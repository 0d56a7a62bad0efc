/** The rate of one host inside a limiter that serves other hosts too and evicts idle buckets. */
module HostRates {
  import opened TokenBuckets

  function HostTimes(es: seq<Event>, host: string): seq<real> {
    if es == [] then []
    else
      var e := es[|es| - 1];
      HostTimes(es[..|es| - 1], host) + if e.Request? && e.host == host then [e.at] else []
  }

  /** The requests of a host that are let in during a run. */
  function HostAdmitted(c: Config, store: Buckets, es: seq<Event>, host: string, evicting: bool): nat {
    if es == [] then 0
    else
      var front, e := es[..|es| - 1], es[|es| - 1];
      HostAdmitted(c, store, front, host, evicting)
      + if e.Request? && e.host == host
           && Admits(c, Current(c, RunStore(c, store, front, evicting), host, e.at), e.at) then 1 else 0
  }

  // ---------------------------------------------------------------- a host in a limiter that never evicts

  lemma {:induction false} HostTimesIn(es: seq<Event>, host: string, start: real, end: real)
    requires InTime(es, start) && (forall i :: 0 <= i < |es| ==> es[i].at <= end)
    ensures Ordered(HostTimes(es, host), start)
    ensures forall i :: 0 <= i < |HostTimes(es, host)| ==> HostTimes(es, host)[i] <= end
  {
    if es != [] {
      HostTimesIn(es[..|es| - 1], host, start, es[|es| - 1].at);
    }
  }

  lemma FullStays(c: Config, start: real, at: real)
    requires Sane(c) && start <= at
    ensures After(c, Full(c, start), at) == After(c, Full(c, at), at)
    ensures Admits(c, Full(c, start), at) == Admits(c, Full(c, at), at)
  {
    hide Gain;
    GainAdds(c, 0.0, 0.0);
    GainGrows(c, 0.0, at - start);
  }

  /** What the store has for the host is what its own requests alone have made of its bucket. */
  ghost predicate HostBucket(c: Config, store: Buckets, host: string, b: Level, times: seq<real>, known: bool) {
    if times == [] && !known then host !in store
    else host in store && store[host] == RunBucket(c, b, times)
  }

  lemma KeepingStep(c: Config, store: Buckets, host: string, b: Level, times: seq<real>, known: bool, e: Event)
    requires Sane(c) && HostBucket(c, store, host, b, times, known) && b.last <= e.at
    requires !known ==> b == Full(c, b.last)
    ensures HostBucket(c, Next(c, store, e, false), host, b,
                       times + if e.Request? && e.host == host then [e.at] else [], known)
    ensures e.Request? && e.host == host ==>
      Admits(c, Current(c, store, host, e.at), e.at) == Admits(c, RunBucket(c, b, times), e.at)
  {
    hide Admits, Gain, Refilled;
    if e.Request? && e.host == host {
      var longer := times + [e.at];
      assert longer[..|longer| - 1] == times && longer[|longer| - 1] == e.at;
      assert RunBucket(c, b, longer) == After(c, RunBucket(c, b, times), e.at);
      if times == [] && !known {
        assert RunBucket(c, b, times) == b;
        FullStays(c, b.last, e.at);
      }
    } else {
      assert times + [] == times;
    }
  }

  /** Other hosts and their requests make no difference. */
  lemma {:induction false} KeepingHost(c: Config, store: Buckets, es: seq<Event>, host: string, start: real)
    requires Sane(c) && InTime(es, start) && (host in store ==> LevelOk(c, store[host], start))
    ensures var b, times := Current(c, store, host, start), HostTimes(es, host);
      && HostBucket(c, RunStore(c, store, es, false), host, b, times, host in store)
      && HostAdmitted(c, store, es, host, false) == Admitted(c, b, times)
  {
    hide Admits, Gain, Refilled, HostBucket;
    if es == [] {
      StartBucket(c, store, host, start);
    } else {
      var front, e := es[..|es| - 1], es[|es| - 1];
      var b, times := Current(c, store, host, start), HostTimes(front, host);
      KeepingHost(c, store, front, host, start);
      KeepingStep(c, RunStore(c, store, front, false), host, b, times, host in store, e);
      assert (times + [e.at])[..|times|] == times;
      assert times + [] == times;
    }
  }

  lemma StartBucket(c: Config, store: Buckets, host: string, start: real)
    ensures HostBucket(c, store, host, Current(c, store, host, start), [], host in store)
  {
  }

  // ---------------------------------------------------------------- a host in a limiter that evicts

  lemma {:induction false} SameAdmitted(c: Config, evicting: Buckets, keeping: Buckets, es: seq<Event>, host: string,
                                        start: real)
    requires Sane(c) && Gain(c, c.ttl) >= c.capacity && InTime(es, start) && Similar(c, evicting, keeping, start)
    ensures HostAdmitted(c, evicting, es, host, true) == HostAdmitted(c, keeping, es, host, false)
    ensures Similar(c, RunStore(c, evicting, es, true), RunStore(c, keeping, es, false),
                    if es == [] then start else es[|es| - 1].at)
  {
    hide Admits, Gain, Refilled, Similar;
    if es != [] {
      var front, e := es[..|es| - 1], es[|es| - 1];
      SameAdmitted(c, evicting, keeping, front, host, start);
      SimilarStep(c, RunStore(c, evicting, front, true), RunStore(c, keeping, front, false),
                  if front == [] then start else front[|front| - 1].at, e);
      SameAnswer(c, RunStore(c, evicting, front, true), RunStore(c, keeping, front, false), e);
    }
  }

  lemma SameAnswer(c: Config, a: Buckets, b: Buckets, e: Event)
    requires Answer(c, a, e) == Answer(c, b, e)
    ensures e.Request? ==> Admits(c, Current(c, a, e.host, e.at), e.at) == Admits(c, Current(c, b, e.host, e.at), e.at)
  {
    if e.Request? {
      assert Answer(c, a, e)[0] == Answer(c, b, e)[0];
    }
  }

  /** After any events, in any stretch of a run of the evicting limiter, the requests of one host that are
      let in number at most capacity + rate * (t2 - t1). */
  ghost predicate RateHeld(c: Config, pre: seq<Event>, es: seq<Event>, host: string) {
    var times := HostTimes(es, host);
    InTime(pre + es, 0.0) && times != [] ==>
      HostAdmitted(c, RunStore(c, map[], pre, true), es, host, true) as real
        <= c.capacity + c.rate * (times[|times| - 1] - times[0])
  }

  ghost predicate RateKept(c: Config) {
    forall pre: seq<Event>, es: seq<Event>, host: string :: RateHeld(c, pre, es, host)
  }

  /** The same bound in terms of what flows in. */
  ghost predicate RateCovered(c: Config, pre: seq<Event>, es: seq<Event>, host: string) {
    var times := HostTimes(es, host);
    InTime(pre + es, 0.0) && times != [] ==>
      HostAdmitted(c, RunStore(c, map[], pre, true), es, host, true) as real
        <= c.capacity + Gain(c, times[|times| - 1] - times[0])
  }

  lemma HeldIsCovered(c: Config, pre: seq<Event>, es: seq<Event>, host: string)
    ensures RateHeld(c, pre, es, host) <==> RateCovered(c, pre, es, host)
  {
    hide Gain, HostAdmitted, HostTimes, InTime, RunStore;
    var times := HostTimes(es, host);
    if times != [] {
      GainIs(c, times[|times| - 1] - times[0]);
    }
  }

  lemma HostCovered(c: Config, pre: seq<Event>, es: seq<Event>, host: string)
    requires Sane(c) && Gain(c, c.ttl) >= c.capacity
    ensures RateCovered(c, pre, es, host)
  {
    hide Admits, Gain, Refilled, Similar;
    var times := HostTimes(es, host);
    if InTime(pre + es, 0.0) && times != [] {
      SplitInTime(pre, es);
      var start := if pre == [] then 0.0 else pre[|pre| - 1].at;
      SimilarCore(c, pre, 0.0);
      var evicting, keeping := RunStore(c, map[], pre, true), RunStore(c, map[], pre, false);
      SameAdmitted(c, evicting, keeping, es, host, start);
      SimilarLevels(c, evicting, keeping, start, host);
      KeepingHost(c, keeping, es, host, start);
      HostTimesIn(es, host, start, es[|es| - 1].at);
      BoundFrom(c, Current(c, keeping, host, start), times, start);
    }
  }

  /** When a bucket refills within the ttl, the evicting limiter holds every host to its rate. */
  lemma HostRateBound(c: Config, pre: seq<Event>, es: seq<Event>, host: string)
    requires Sane(c) && c.rate * c.ttl >= c.capacity
    ensures RateHeld(c, pre, es, host)
  {
    hide Gain, RateHeld, RateCovered, Sane;
    GainIs(c, c.ttl);
    HostCovered(c, pre, es, host);
    HeldIsCovered(c, pre, es, host);
  }

  lemma BoundFrom(c: Config, b: Level, times: seq<real>, start: real)
    requires Sane(c) && LevelOk(c, b, start) && Ordered(times, start) && times != []
    ensures Admitted(c, b, times) as real <= c.capacity + Gain(c, times[|times| - 1] - times[0])
  {
    hide Admitted, Gain, RunBucket;
    TokensCovered(c, b, times);
    TokensLeft(c, b, times);
  }

  lemma SimilarLevels(c: Config, evicting: Buckets, keeping: Buckets, now: real, host: string)
    requires Sane(c) && Similar(c, evicting, keeping, now)
    ensures LevelOk(c, Current(c, keeping, host, now), now)
    ensures host in keeping ==> LevelOk(c, keeping[host], now)
  {
    assert SimilarAt(c, evicting, keeping, now, host);
  }

  lemma SplitInTime(pre: seq<Event>, es: seq<Event>)
    requires InTime(pre + es, 0.0)
    ensures InTime(pre, 0.0) && InTime(es, if pre == [] then 0.0 else pre[|pre| - 1].at)
  {
    var all := pre + es;
    assert forall i :: 0 <= i < |pre| ==> pre[i] == all[i];
    assert forall i :: 0 <= i < |es| ==> es[i] == all[|pre| + i];
  }

  lemma {:induction false} SmallHostDenied(c: Config, store: Buckets, es: seq<Event>, host: string)
    requires c.capacity < 1.0
    ensures HostAdmitted(c, store, es, host, true) == 0
  {
    if es != [] {
      SmallHostDenied(c, store, es[..|es| - 1], host);
    }
  }

  // ---------------------------------------------------------------- when the rate is exceeded

  /** One more event of a run. */
  lemma HostStep(c: Config, store: Buckets, es: seq<Event>, e: Event, host: string)
    ensures HostAdmitted(c, store, es + [e], host, true)
         == HostAdmitted(c, store, es, host, true)
            + if e.Request? && e.host == host
                 && Admits(c, Current(c, RunStore(c, store, es, true), host, e.at), e.at) then 1 else 0
    ensures HostTimes(es + [e], host) == HostTimes(es, host) + if e.Request? && e.host == host then [e.at] else []
    ensures RunStore(c, store, es + [e], true) == Next(c, RunStore(c, store, es, true), e, true)
  {
    hide Admits;
    assert (es + [e])[..|es|] == es;
  }

  lemma {:induction false} HostJoin(c: Config, store: Buckets, a: seq<Event>, b: seq<Event>, host: string)
    ensures HostAdmitted(c, store, a + b, host, true)
         == HostAdmitted(c, store, a, host, true) + HostAdmitted(c, RunStore(c, store, a, true), b, host, true)
    ensures HostTimes(a + b, host) == HostTimes(a, host) + HostTimes(b, host)
    decreases |b|
  {
    hide Admits, Current, Next, RunStore;
    if b == [] {
      assert a + b == a;
    } else {
      hide HostAdmitted, HostTimes;
      var front, e := b[..|b| - 1], b[|b| - 1];
      HostJoin(c, store, a, front, host);
      RunJoin(c, store, a, front, true);
      HostStep(c, store, a + front, e, host);
      HostStep(c, RunStore(c, store, a, true), front, e, host);
      assert a + b == (a + front) + [e] && b == front + [e];
    }
  }

  lemma {:induction false} CountIsReal(n: nat)
    ensures Count(n) == n as real
  {
    if n > 0 {
      CountIsReal(n - 1);
    }
  }

  lemma NoEvents(c: Config, store: Buckets, host: string, at: real)
    ensures HostAdmitted(c, store, [], host, true) == 0 && HostTimes([], host) == []
    ensures RunStore(c, store, [], true) == store && Burst(host, at, 0) == []
  {
  }

  lemma {:induction false} HostBurst(c: Config, store: Buckets, host: string, at: real, n: nat)
    requires n >= 1 && Count(n) <= Refilled(c, Current(c, store, host, at), at)
    ensures HostAdmitted(c, store, Burst(host, at, n), host, true) == n
    ensures var times := HostTimes(Burst(host, at, n), host);
      |times| == n && times[0] == at == times[n - 1]
  {
    hide Admits, Handled, Gain, HostAdmitted, HostTimes, Refilled, RunStore;
    var full := Refilled(c, Current(c, store, host, at), at);
    HostStep(c, store, Burst(host, at, n - 1), Request(host, at), host);
    if n > 1 {
      RefilledFits(c, Current(c, store, host, at), at);
      HostBurst(c, store, host, at, n - 1);
      BurstSpends(c, store, host, at, n - 1, true);
      LastOfBurst(c, full, n, at);
    } else {
      NoEvents(c, store, host, at);
      FirstOfBurst(c, Current(c, store, host, at), at);
    }
  }

  lemma RefilledFits(c: Config, b: Level, at: real)
    ensures Refilled(c, b, at) <= c.capacity
  {
  }

  lemma LastOfBurst(c: Config, full: real, n: nat, at: real)
    requires n >= 1 && Count(n) <= full <= c.capacity
    ensures Admits(c, Level(full - Count(n - 1), at), at)
  {
    hide Gain;
    CountNatural(n - 1);
    SpendOne(c, Level(full - Count(n - 1), at), at);
  }

  lemma FirstOfBurst(c: Config, b: Level, at: real)
    requires 1.0 <= Refilled(c, b, at)
    ensures Admits(c, b, at)
  {
  }

  /** From no bucket at start to an all but empty one at end, letting in all that a bucket allows. */
  ghost predicate Spends(c: Config, host: string, start: real, es: seq<Event>, end: real, left: real) {
    var times := HostTimes(es, host);
    && start <= end && InTime(es, start) && (forall i :: 0 <= i < |es| ==> es[i].at <= end)
    && RunStore(c, map[], es, true) == map[host := Level(left, end)]
    && times != [] && times[0] == start && times[|times| - 1] == end
    && HostAdmitted(c, map[], es, host, true) as real + left == c.capacity + Gain(c, end - start)
    && 0.0 <= left && 2.0 * left < c.capacity && (0.0 < c.rate ==> left == 0.0)
  }

  lemma FullAtStart(c: Config, host: string, start: real)
    requires Sane(c)
    ensures Refilled(c, Current(c, map[], host, start), start) == c.capacity
  {
    hide Gain;
    GainAdds(c, 0.0, 0.0);
  }

  lemma SpendBurst(c: Config, host: string, start: real, n: nat)
    requires Sane(c) && n >= 1 && Count(n) <= c.capacity
    ensures var es := Burst(host, start, n);
      && InTime(es, start) && (forall i :: 0 <= i < |es| ==> es[i].at == start)
      && RunStore(c, map[], es, true) == map[host := Level(c.capacity - Count(n), start)]
      && HostAdmitted(c, map[], es, host, true) == n
  {
    hide Gain, HostAdmitted, Refilled, RunStore;
    FullAtStart(c, host, start);
    BurstInTime(host, start, n);
    BurstSpends(c, map[], host, start, n, true);
    HostBurst(c, map[], host, start, n);
  }

  lemma TokenBack(c: Config, left: real, start: real, at: real)
    requires 1.0 <= c.capacity && left + Gain(c, at - start) == 1.0
    ensures Admits(c, Level(left, start), at) && After(c, Level(left, start), at) == Level(0.0, at)
  {
    hide Gain;
  }

  lemma LaterInTime(es: seq<Event>, start: real, e: Event)
    requires InTime(es, start) && start <= e.at && forall i :: 0 <= i < |es| ==> es[i].at <= start
    ensures InTime(es + [e], start) && forall i :: 0 <= i < |es + [e]| ==> (es + [e])[i].at <= e.at
  {
  }

  /** One more request, at the moment when a whole token is back. */
  lemma SpendLast(c: Config, host: string, start: real, es: seq<Event>, left: real, n: nat, at: real)
    requires Sane(c) && start <= at && 1.0 <= c.capacity && InTime(es, start) && left == c.capacity - n as real
    requires forall i :: 0 <= i < |es| ==> es[i].at <= start
    requires RunStore(c, map[], es, true) == map[host := Level(left, start)]
    requires HostAdmitted(c, map[], es, host, true) == n
    requires HostTimes(es, host) != [] && HostTimes(es, host)[0] == start
    requires left + Gain(c, at - start) == 1.0
    ensures Spends(c, host, start, es + [Request(host, at)], at, 0.0)
  {
    hide Admits, After, Gain, HostAdmitted, HostTimes, RunStore;
    HostStep(c, map[], es, Request(host, at), host);
    TokenBack(c, left, start, at);
    LaterInTime(es, start, Request(host, at));
    assert map[host := Level(left, start)][host := Level(0.0, at)] == map[host := Level(0.0, at)];
  }

  lemma SpendPhase(c: Config, host: string, start: real) returns (es: seq<Event>, end: real, left: real)
    requires Sane(c) && 1.0 <= c.capacity
    ensures Spends(c, host, start, es, end, left)
  {
    hide Gain, HostAdmitted, RunStore;
    var n := WholePart(c.capacity);
    CountNatural(n);
    CountIsReal(n);
    FullAtStart(c, host, start);
    GainAdds(c, 0.0, 0.0);
    assert n >= 1;
    es, end, left := Burst(host, start, n), start, c.capacity - Count(n);
    SpendBurst(c, host, start, n);
    HostBurst(c, map[], host, start, n);
    if 0.0 < c.rate {
      var w := WaitFor(c, 1.0 - left);
      assert (start + w) - start == w;
      SpendLast(c, host, start, es, left, n, start + w);
      es, end, left := es + [Request(host, start + w)], start + w, 0.0;
    }
  }

  /** A spent bucket, evicted while it would still have been short, and spent again. */
  lemma SpendTwice(c: Config, host: string, a: seq<Event>, end: real, left: real, at: real,
                   b: seq<Event>, end': real, left': real)
    requires Sane(c) && Spends(c, host, 0.0, a, end, left) && Spends(c, host, at, b, end', left')
    requires end + c.ttl < at && left + left' + Gain(c, at - end) < c.capacity
    ensures !RateCovered(c, [], a + [Evict(at)] + b, host)
  {
    hide Gain, HostAdmitted, HostTimes, RunStore;
    var es := a + [Evict(at)] + b;
    Interrupted(c, host, a, Level(left, end), at);
    HostJoin(c, map[], a + [Evict(at)], b, host);
    NoEvents(c, map[], host, at);
    JoinInTime(a, end, at, b);
    GainAdds(c, end, at - end);
    GainAdds(c, at, end' - at);
    assert end + (at - end) == at && at + (end' - at) == end' && end - 0.0 == end;
    assert [] + es == es;
    assert HostTimes(es, host) == HostTimes(a + [Evict(at)], host) + HostTimes(b, host);
  }

  lemma Interrupted(c: Config, host: string, a: seq<Event>, b: Level, at: real)
    requires RunStore(c, map[], a, true) == map[host := b] && at - b.last > c.ttl
    ensures RunStore(c, map[], a + [Evict(at)], true) == map[]
    ensures HostAdmitted(c, map[], a + [Evict(at)], host, true) == HostAdmitted(c, map[], a, host, true)
    ensures HostTimes(a + [Evict(at)], host) == HostTimes(a, host)
  {
    hide Admits;
    assert (a + [Evict(at)])[..|a|] == a;
    assert Evicted(c, map[host := b], at) == map[];
  }

  lemma JoinInTime(a: seq<Event>, end: real, at: real, b: seq<Event>)
    requires InTime(a, 0.0) && (forall i :: 0 <= i < |a| ==> a[i].at <= end) && 0.0 <= end <= at && InTime(b, at)
    ensures InTime(a + [Evict(at)] + b, 0.0)
  {
  }

  /** Every host is held to its rate in every run exactly when eviction cannot be observed: when a bucket
      refills within the ttl, or can never let anything in. */
  lemma RateKeptIff(c: Config)
    requires Sane(c)
    ensures RateKept(c) <==> c.rate * c.ttl >= c.capacity || c.capacity < 1.0
    ensures RateKept(c) <==> Unobservable(c)
  {
    hide Gain, RateKept, Sane, Unobservable;
    EvictionUnobservableIff(c);
    GainIs(c, c.ttl);
    RateKeptCore(c);
  }

  lemma RateKeptCore(c: Config)
    requires Sane(c)
    ensures RateKept(c) <==> Gain(c, c.ttl) >= c.capacity || c.capacity < 1.0
  {
    hide Gain, RateHeld, RateCovered;
    forall pre: seq<Event>, es: seq<Event>, host: string
      ensures RateHeld(c, pre, es, host) <==> RateCovered(c, pre, es, host)
    {
      HeldIsCovered(c, pre, es, host);
    }
    if Gain(c, c.ttl) >= c.capacity {
      forall pre: seq<Event>, es: seq<Event>, host: string
        ensures RateHeld(c, pre, es, host)
      {
        HostCovered(c, pre, es, host);
      }
    } else if c.capacity < 1.0 {
      forall pre: seq<Event>, es: seq<Event>, host: string
        ensures RateHeld(c, pre, es, host)
      {
        SmallHostHeld(c, pre, es, host);
      }
    } else {
      var a, end, left := SpendPhase(c, "", 0.0);
      SpentIsShort(c, "", a, end, left);
      var at := EvictionTime(c, Level(left, end));
      var b, end', left' := SpendPhase(c, "", at);
      LeftsFit(c, "", a, end, left, at, b, end', left');
      SpendTwice(c, "", a, end, left, at, b, end', left');
      assert !RateHeld(c, [], a + [Evict(at)] + b, "");
    }
  }

  lemma SmallHostHeld(c: Config, pre: seq<Event>, es: seq<Event>, host: string)
    requires Sane(c) && c.capacity < 1.0
    ensures RateCovered(c, pre, es, host)
  {
    hide Gain;
    var times := HostTimes(es, host);
    SmallHostDenied(c, RunStore(c, map[], pre, true), es, host);
    if InTime(pre + es, 0.0) && times != [] {
      SplitInTime(pre, es);
      HostTimesIn(es, host, if pre == [] then 0.0 else pre[|pre| - 1].at, es[|es| - 1].at);
      GainAdds(c, 0.0, 0.0);
      GainGrows(c, 0.0, times[|times| - 1] - times[0]);
    }
  }

  lemma SpentIsShort(c: Config, host: string, es: seq<Event>, end: real, left: real)
    requires Sane(c) && 1.0 <= c.capacity && Gain(c, c.ttl) < c.capacity && Spends(c, host, 0.0, es, end, left)
    ensures left + Gain(c, c.ttl) < c.capacity
  {
    hide Gain;
    if c.rate == 0.0 {
      NoGain(c, c.ttl);
    }
  }

  lemma LeftsFit(c: Config, host: string, a: seq<Event>, end: real, left: real, at: real,
                 b: seq<Event>, end': real, left': real)
    requires Sane(c) && Spends(c, host, 0.0, a, end, left) && Spends(c, host, at, b, end', left')
    requires left + Gain(c, at - end) < c.capacity
    ensures left + left' + Gain(c, at - end) < c.capacity
  {
    hide Gain;
    if c.rate == 0.0 {
      NoGain(c, at - end);
    }
  }

  /** For one: two tokens, one a second, and eviction after one idle second. */
  lemma ShortTtlExceedsRate()
    ensures !RateKept(Config(2.0, 1.0, 1.0))
  {
    RateKeptIff(Config(2.0, 1.0, 1.0));
  }
}
