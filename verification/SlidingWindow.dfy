/** The sliding window counter: a count for the current fixed window and one for the window before it,
    weighted by how much of that window the last size seconds still overlap.  Times are whole seconds
    since the epoch. */
module SlidingWindow {
  import opened Basics

  datatype Config = Config(size: int, limit: int)

  datatype Window = Window(id: int, current: int, previous: int)

  predicate Sane(c: Config) {
    1 <= c.size
  }

  /** The counter of a manager that has not seen a request. */
  const UNUSED: Window := Window(0, 0, 0)

  // ---------------------------------------------------------------- one request

  function WindowOf(c: Config, now: int): int
    requires Sane(c)
  {
    now / c.size
  }

  /** The second that window id starts at. */
  function Start(c: Config, id: int): int {
    id * c.size
  }

  lemma StartNext(c: Config, id: int)
    ensures Start(c, id + 1) == Start(c, id) + c.size
  {
  }

  lemma StartsGrow(c: Config, id: int, other: int)
    requires Sane(c) && id < other
    ensures Start(c, id) + c.size <= Start(c, other)
  {
    assert 0 <= (other - id - 1) * c.size;
    assert other * c.size == id * c.size + c.size + (other - id - 1) * c.size;
  }

  lemma WindowHolds(c: Config, now: int)
    requires Sane(c)
    ensures Start(c, WindowOf(c, now)) <= now < Start(c, WindowOf(c, now)) + c.size
  {
    assert now == (now / c.size) * c.size + now % c.size;
  }

  function Rolled(w: Window, id: int): Window {
    if w.id == id then w
    else if id == w.id + 1 then Window(id, 0, w.current)
    else Window(id, 0, 0)
  }

  /** The requests estimated to lie in the last size seconds. */
  function Estimate(c: Config, w: Window, elapsed: int): real
    requires Sane(c)
  {
    var overlap := (c.size - elapsed) as real / c.size as real;
    w.current as real + w.previous as real * (if overlap < 0.0 then 0.0 else overlap)
  }

  function Admits(c: Config, w: Window, now: int): bool
    requires Sane(c)
  {
    var id := WindowOf(c, now);
    Estimate(c, Rolled(w, id), now - Start(c, id)).Floor < c.limit
  }

  function After(c: Config, w: Window, now: int): Window
    requires Sane(c)
  {
    var rolled := Rolled(w, WindowOf(c, now));
    if Admits(c, w, now) then rolled.(current := rolled.current + 1) else rolled
  }

  /** After any request, at whatever time it comes, the counter is that of the request's window; and unless
      that is the counter's own window or the next one, nothing from before is left in it. */
  lemma FreshAfterJump(c: Config, w: Window, now: int)
    requires Sane(c)
    ensures After(c, w, now).id == WindowOf(c, now)
    ensures WindowOf(c, now) != w.id && WindowOf(c, now) != w.id + 1 ==>
      After(c, w, now).previous == 0
      && After(c, w, now).current == (if Admits(c, w, now) then 1 else 0)
      && (Admits(c, w, now) <==> c.limit > 0)
  {
    hide WindowOf, Start;
  }

  /** Size times the estimate, in whole numbers. */
  function Weight(size: int, current: int, previous: int, elapsed: int): int {
    size * current + previous * (size - elapsed)
  }

  /** The test on the truncated estimate is the test on whole numbers. */
  lemma EstimateIsWeight(c: Config, w: Window, elapsed: int)
    requires Sane(c) && 0 <= elapsed < c.size
    ensures Estimate(c, w, elapsed).Floor < c.limit
       <==> Weight(c.size, w.current, w.previous, elapsed) < c.size * c.limit
  {
    var size, left := c.size as real, (c.size - elapsed) as real;
    var share := left / size;
    var estimate := Estimate(c, w, elapsed);
    assert share * size == left;
    assert 0.0 <= share;
    ScaledEstimate(w.current as real, w.previous as real, share, size);
    ScaledWeight(c, w, elapsed);
    assert estimate * size == Weight(c.size, w.current, w.previous, elapsed) as real;
    ScaledTest(estimate, size, c.limit as real);
    assert c.limit as real * size == (c.size * c.limit) as real;
    assert estimate.Floor < c.limit <==> estimate < c.limit as real;
  }

  lemma ScaledEstimate(current: real, previous: real, share: real, size: real)
    ensures (current + previous * share) * size == size * current + previous * (share * size)
  {
  }

  lemma ScaledWeight(c: Config, w: Window, elapsed: int)
    ensures Weight(c.size, w.current, w.previous, elapsed) as real
         == c.size as real * w.current as real + w.previous as real * (c.size - elapsed) as real
  {
  }

  lemma ScaledTest(x: real, size: real, limit: real)
    requires 0.0 < size
    ensures x < limit <==> x * size < limit * size
  {
  }

  // ---------------------------------------------------------------- runs

  ghost predicate Ordered(times: seq<int>) {
    && (forall i :: 0 <= i < |times| ==> 0 <= times[i])
    && forall i, j :: 0 <= i < j < |times| ==> times[i] <= times[j]
  }

  function Run(c: Config, times: seq<int>): Window
    requires Sane(c)
  {
    if times == [] then UNUSED else After(c, Run(c, times[..|times| - 1]), times[|times| - 1])
  }

  /** The number of requests let in from second lo up to, not including, second hi. */
  function AdmittedIn(c: Config, times: seq<int>, lo: int, hi: int): nat
    requires Sane(c)
  {
    if times == [] then 0
    else
      var front, now := times[..|times| - 1], times[|times| - 1];
      AdmittedIn(c, front, lo, hi) + if lo <= now < hi && Admits(c, Run(c, front), now) then 1 else 0
  }

  /** The number let in during one fixed window. */
  function AdmittedAt(c: Config, times: seq<int>, id: int): nat
    requires Sane(c)
  {
    AdmittedIn(c, times, Start(c, id), Start(c, id) + c.size)
  }

  lemma {:induction false} Joined(c: Config, times: seq<int>, lo: int, mid: int, hi: int)
    requires Sane(c) && lo <= mid <= hi
    ensures AdmittedIn(c, times, lo, hi) == AdmittedIn(c, times, lo, mid) + AdmittedIn(c, times, mid, hi)
  {
    hide Admits, Run;
    if times != [] {
      Joined(c, times[..|times| - 1], lo, mid, hi);
    }
  }

  lemma {:induction false} NoneOutside(c: Config, times: seq<int>, lo: int, hi: int)
    requires Sane(c) && forall i :: 0 <= i < |times| ==> times[i] < lo || hi <= times[i]
    ensures AdmittedIn(c, times, lo, hi) == 0
  {
    hide Admits, Run;
    if times != [] {
      NoneOutside(c, times[..|times| - 1], lo, hi);
    }
  }

  /** The request at now is let in, on top of what its window has had. */
  lemma OneMoreAt(c: Config, times: seq<int>, now: int, id: int)
    requires Sane(c)
    ensures AdmittedAt(c, times + [now], id)
         == AdmittedAt(c, times, id) + if WindowOf(c, now) == id && Admits(c, Run(c, times), now) then 1 else 0
  {
    hide Admits, Run, Start, WindowOf;
    assert (times + [now])[..|times|] == times;
    var at := WindowOf(c, now);
    WindowHolds(c, now);
    if id < at {
      StartsGrow(c, id, at);
    } else if at < id {
      StartsGrow(c, at, id);
    }
  }

  /** The counter has the numbers let in during its window and the one before. */
  ghost predicate CountsRight(c: Config, times: seq<int>, w: Window)
    requires Sane(c)
  {
    && w.current == AdmittedAt(c, times, w.id)
    && w.previous == AdmittedAt(c, times, w.id - 1)
  }

  lemma NoneYet(c: Config, times: seq<int>, id: int)
    requires Sane(c) && forall i :: 0 <= i < |times| ==> WindowOf(c, times[i]) < id
    ensures AdmittedAt(c, times, id) == 0
  {
    hide WindowOf, Start;
    forall i | 0 <= i < |times|
      ensures times[i] < Start(c, id)
    {
      WindowHolds(c, times[i]);
      StartsGrow(c, WindowOf(c, times[i]), id);
    }
    NoneOutside(c, times, Start(c, id), Start(c, id) + c.size);
  }

  ghost predicate UpTo(c: Config, times: seq<int>, id: int)
    requires Sane(c)
  {
    forall i :: 0 <= i < |times| ==> WindowOf(c, times[i]) <= id
  }

  lemma FirstWindow(c: Config)
    requires Sane(c)
    ensures WindowOf(c, 0) == 0
  {
  }

  lemma WindowsInOrder(c: Config, now: int, later: int)
    requires Sane(c) && now <= later
    ensures WindowOf(c, now) <= WindowOf(c, later)
  {
    hide WindowOf, Start;
    var a, b := WindowOf(c, now), WindowOf(c, later);
    WindowHolds(c, now);
    WindowHolds(c, later);
    if b < a {
      StartsGrow(c, b, a);
    }
  }

  /** Rolling on to a window that is not behind keeps the counts right. */
  lemma RolledRight(c: Config, times: seq<int>, w: Window, id: int)
    requires Sane(c) && CountsRight(c, times, w) && UpTo(c, times, w.id) && w.id <= id
    ensures CountsRight(c, times, Rolled(w, id)) && UpTo(c, times, id)
  {
    hide WindowOf, AdmittedAt;
    if w.id < id {
      NoneYet(c, times, id);
    }
    if w.id + 1 < id {
      NoneYet(c, times, id - 1);
    }
  }

  /** Over a whole run the counter counts what was let in, window by window. */
  lemma {:induction false} RunCounts(c: Config, times: seq<int>)
    requires Sane(c) && Ordered(times)
    ensures CountsRight(c, times, Run(c, times)) && UpTo(c, times, Run(c, times).id)
    ensures Run(c, times).id == if times == [] then 0 else WindowOf(c, times[|times| - 1])
  {
    hide Admits, WindowOf, AdmittedAt;
    if times == [] {
      NoneYet(c, times, 0);
      NoneYet(c, times, -1);
    } else {
      var front, now := times[..|times| - 1], times[|times| - 1];
      var w, id := Run(c, front), WindowOf(c, now);
      RunCounts(c, front);
      WindowsInOrder(c, 0, now);
      FirstWindow(c);
      if front != [] {
        WindowsInOrder(c, front[|front| - 1], now);
      }
      RolledRight(c, front, w, id);
      assert times == front + [now];
      OneMoreAt(c, front, now, id);
      OneMoreAt(c, front, now, id - 1);
    }
  }

  // ---------------------------------------------------------------- bounds

  /** What the admission of a request says about the counts before it. */
  lemma AdmissionTest(c: Config, times: seq<int>, now: int)
    requires Sane(c) && Ordered(times + [now])
    ensures var id := WindowOf(c, now);
      Admits(c, Run(c, times), now) <==>
      Weight(c.size, AdmittedAt(c, times, id), AdmittedAt(c, times, id - 1), now - Start(c, id)) < c.size * c.limit
  {
    hide WindowOf, AdmittedAt, Start, Estimate, Weight;
    var w, id := Run(c, times), WindowOf(c, now);
    assert times == (times + [now])[..|times|];
    assert Ordered(times);
    RunCounts(c, times);
    assert 0 <= now by { assert (times + [now])[|times|] == now; }
    FirstWindow(c);
    WindowsInOrder(c, 0, now);
    if times != [] {
      assert (times + [now])[|times| - 1] == times[|times| - 1];
      WindowsInOrder(c, times[|times| - 1], now);
    }
    RolledRight(c, times, w, id);
    WindowHolds(c, now);
    EstimateIsWeight(c, Rolled(w, id), now - Start(c, id));
  }

  lemma BelowLimit(size: int, count: int, previous: int, elapsed: int, limit: int)
    requires 0 <= previous && 0 <= elapsed < size && Weight(size, count, previous, elapsed) < size * limit
    ensures count < limit
  {
    assert 0 <= previous * (size - elapsed);
  }

  /** No fixed window lets in more than the limit. */
  lemma {:induction false} AlignedBound(c: Config, times: seq<int>, id: int)
    requires Sane(c) && Ordered(times)
    ensures AdmittedAt(c, times, id) <= if c.limit < 0 then 0 else c.limit
  {
    hide WindowOf, AdmittedAt, Start, Admits, Weight;
    if times == [] {
      NoneYet(c, times, id);
    } else {
      var front, now := times[..|times| - 1], times[|times| - 1];
      assert times == front + [now];
      AlignedBound(c, front, id);
      OneMoreAt(c, front, now, id);
      if WindowOf(c, now) == id && Admits(c, Run(c, front), now) {
        AdmissionTest(c, front, now);
        WindowHolds(c, now);
        BelowLimit(c.size, AdmittedAt(c, front, id), AdmittedAt(c, front, id - 1), now - Start(c, id), c.limit);
      }
    }
  }

  /** The most that size seconds can let in, times size, when they begin offset seconds into a window. */
  function RollingCap(c: Config, offset: int): int {
    c.size * (c.limit + 1) + c.limit * (if offset <= 1 then 0 else offset - 1)
  }

  /** n requests are fewer than that. */
  predicate BelowCap(c: Config, n: int, offset: int) {
    c.size * n < RollingCap(c, offset)
  }

  /** The last request let in was in the window in which the seconds began. */
  lemma FirstPart(c: Config, times: seq<int>, from: int)
    requires Sane(c) && Ordered(times) && UpTo(c, times, WindowOf(c, from))
    ensures AdmittedIn(c, times, from, from + c.size) <= AdmittedAt(c, times, WindowOf(c, from))
  {
    hide AdmittedIn, WindowOf, Start;
    var k := WindowOf(c, from);
    var end := Start(c, k) + c.size;
    WindowHolds(c, from);
    StartNext(c, k);
    Joined(c, times, from, end, from + c.size);
    NoneYet(c, times, k + 1);
    Joined(c, times, end, from + c.size, end + c.size);
    Joined(c, times, Start(c, k), from, end);
  }

  /** The last request let in was in the window after that. */
  lemma SecondPart(c: Config, times: seq<int>, from: int)
    requires Sane(c) && Ordered(times)
    ensures AdmittedIn(c, times, from, from + c.size)
         <= AdmittedAt(c, times, WindowOf(c, from)) + AdmittedAt(c, times, WindowOf(c, from) + 1)
  {
    hide AdmittedIn, WindowOf, Start;
    var k := WindowOf(c, from);
    var end := Start(c, k) + c.size;
    WindowHolds(c, from);
    StartNext(c, k);
    Joined(c, times, from, end, from + c.size);
    Joined(c, times, end, from + c.size, end + c.size);
    Joined(c, times, Start(c, k), from, end);
  }

  lemma FirstCap(size: int, limit: int, n: int, offset: int)
    requires 1 <= size && 0 <= limit && n <= limit && 0 <= offset
    ensures BelowCap(Config(size, limit), n, offset)
  {
    assert size * n <= size * limit;
    assert 0 <= limit * (if offset <= 1 then 0 else offset - 1);
  }

  /** first in the one window and second more before the last in the next, at elapsed seconds into it. */
  lemma SecondCap(size: int, limit: int, n: int, first: int, second: int, elapsed: int, offset: int)
    requires 1 <= size && 0 <= first <= limit && n <= first + second + 1 && 0 <= elapsed < offset
    requires Weight(size, second, first, elapsed) < size * limit
    ensures BelowCap(Config(size, limit), n, offset)
  {
    ProductGrows(size, n, first + second + 1);
    ProductGrows(first, elapsed, offset - 1);
    ProductGrows(offset - 1, first, limit);
    assert size * (first + second + 1) == size * first + size * second + size;
    assert first * (size - elapsed) == size * first - first * elapsed;
    assert size * (limit + 1) == size * limit + size;
  }

  /** Any size seconds in a row, wherever they begin. */
  lemma {:induction false} RollingBound(c: Config, times: seq<int>, from: int)
    requires Sane(c) && 0 <= c.limit && Ordered(times)
    ensures BelowCap(c, AdmittedIn(c, times, from, from + c.size), from - Start(c, WindowOf(c, from)))
  {
    hide WindowOf, AdmittedAt, Start, Admits, BelowCap;
    var k, n := WindowOf(c, from), AdmittedIn(c, times, from, from + c.size);
    WindowHolds(c, from);
    if times == [] {
      FirstCap(c.size, c.limit, n, from - Start(c, k));
    } else {
      var front, now := times[..|times| - 1], times[|times| - 1];
      assert times == front + [now];
      if from <= now < from + c.size && Admits(c, Run(c, front), now) {
        LastAdmitted(c, front, now, from);
      } else {
        RollingBound(c, front, from);
      }
    }
  }

  lemma LastAdmitted(c: Config, front: seq<int>, now: int, from: int)
    requires Sane(c) && 0 <= c.limit && Ordered(front + [now])
    requires from <= now < from + c.size && Admits(c, Run(c, front), now)
    ensures BelowCap(c, AdmittedIn(c, front + [now], from, from + c.size), from - Start(c, WindowOf(c, from)))
  {
    hide WindowOf, AdmittedAt, AdmittedIn, Run, Start, Admits, Weight, BelowCap;
    var times, k, id := front + [now], WindowOf(c, from), WindowOf(c, now);
    WindowHolds(c, from);
    WindowHolds(c, now);
    WindowsInOrder(c, from, now);
    AlignedBound(c, times, k);
    RunCounts(c, times);
    if id == k {
      FirstPart(c, times, from);
      FirstCap(c.size, c.limit, AdmittedIn(c, times, from, from + c.size), from - Start(c, k));
    } else {
      StartNext(c, k);
      if k + 1 < id {
        StartsGrow(c, k + 1, id);
      }
      SecondPart(c, times, from);
      OneMoreAt(c, front, now, k);
      OneMoreAt(c, front, now, k + 1);
      AdmissionTest(c, front, now);
      SecondCap(c.size, c.limit, AdmittedIn(c, times, from, from + c.size), AdmittedAt(c, front, k),
                AdmittedAt(c, front, k + 1), now - Start(c, k + 1), from - Start(c, k));
    }
  }

  /** Twice the limit, rounded up by less than one request, less what the overlap still weighs. */
  lemma TwiceTheLimit(c: Config, times: seq<int>, from: int)
    requires Sane(c) && 0 <= c.limit && Ordered(times)
    ensures c.size * AdmittedIn(c, times, from, from + c.size) < c.size * (2 * c.limit + 1) - c.limit
  {
    hide WindowOf, Start, Admits, RollingCap;
    var offset := from - Start(c, WindowOf(c, from));
    RollingBound(c, times, from);
    WindowHolds(c, from);
    CapBelowTwice(c, offset);
  }

  lemma CapBelowTwice(c: Config, offset: int)
    requires Sane(c) && 0 <= c.limit && 0 <= offset < c.size
    ensures RollingCap(c, offset) <= c.size * (2 * c.limit + 1) - c.limit
  {
    var late := if offset <= 1 then 0 else offset - 1;
    ProductGrows(c.limit, late, c.size - 1);
    assert c.size * (2 * c.limit + 1) == c.size * (c.limit + 1) + c.limit * c.size;
    assert c.limit * (c.size - 1) == c.limit * c.size - c.limit;
  }

  // ---------------------------------------------------------------- the bound is reached

  /** One more request that is let in. */
  lemma OneMore(c: Config, times: seq<int>, now: int, lo: int, hi: int)
    requires Sane(c) && lo <= now < hi && Admits(c, Run(c, times), now)
    ensures Run(c, times + [now]) == After(c, Run(c, times), now)
    ensures AdmittedIn(c, times + [now], lo, hi) == AdmittedIn(c, times, lo, hi) + 1
  {
    hide Admits, After;
    assert (times + [now])[..|times|] == times;
  }

  lemma FirstFits(c: Config, m: nat, at: int)
    requires Sane(c) && 0 <= at < c.size && 0 < m <= c.limit
    ensures Admits(c, Window(0, m - 1, 0), at) && After(c, Window(0, m - 1, 0), at) == Window(0, m, 0)
  {
    hide Estimate, Start, WindowOf;
    BelowLimitFits(c, m, at);
    EarlyWindow(c, at);
  }

  lemma {:induction false} FirstBurst(c: Config, at: int, m: nat, lo: int, hi: int)
    requires Sane(c) && 0 <= at < c.size && lo <= at < hi && m <= (if c.limit < 0 then 0 else c.limit)
    ensures Run(c, Repeat(at, m)) == Window(0, m, 0) && AdmittedIn(c, Repeat(at, m), lo, hi) == m
  {
    hide Admits, After;
    if m > 0 {
      hide Run, AdmittedIn;
      FirstBurst(c, at, m - 1, lo, hi);
      FirstFits(c, m, at);
      OneMore(c, Repeat(at, m - 1), at, lo, hi);
      assert Repeat(at, m) == Repeat(at, m - 1) + [at];
    }
  }

  lemma BelowLimitFits(c: Config, m: int, elapsed: int)
    requires Sane(c) && m <= c.limit && 0 <= elapsed < c.size
    ensures Estimate(c, Window(0, m - 1, 0), elapsed).Floor < c.limit
  {
    hide Estimate;
    ProductGrows(c.size, m, c.limit);
    assert c.size * (m - 1) == c.size * m - c.size;
    EstimateIsWeight(c, Window(0, m - 1, 0), elapsed);
  }

  lemma EarlyWindow(c: Config, now: int)
    requires Sane(c) && 0 <= now < c.size
    ensures WindowOf(c, now) == 0 && Start(c, 0) == 0
  {
  }

  /** There is room for second requests in a window, when first were let in during the one before and
      the last comes elapsed seconds into it. */
  predicate Room(c: Config, first: int, second: int, elapsed: int) {
    second > 0 ==> Weight(c.size, second - 1, first, elapsed) < c.size * c.limit
  }

  lemma RoomForFewer(c: Config, first: int, second: int, elapsed: int)
    requires 0 <= c.size && Room(c, first, second + 1, elapsed)
    ensures Room(c, first, second, elapsed)
  {
    if second > 0 {
      assert c.size * (second - 1) == c.size * second - c.size;
    }
  }

  lemma RoomFits(c: Config, first: int, second: int, elapsed: int)
    requires Sane(c) && second > 0 && 0 <= elapsed < c.size
    ensures Room(c, first, second, elapsed) ==> Estimate(c, Window(1, second - 1, first), elapsed).Floor < c.limit
  {
    hide Estimate, Weight;
    EstimateIsWeight(c, Window(1, second - 1, first), elapsed);
  }

  lemma SecondWindow(c: Config, now: int)
    requires Sane(c) && c.size <= now < 2 * c.size
    ensures WindowOf(c, now) == 1 && Start(c, 1) == c.size
  {
  }

  lemma SecondFits(c: Config, first: nat, second: nat, later: int)
    requires Sane(c) && c.size <= later < 2 * c.size && second > 0
    ensures var w := if second == 1 then Window(0, first, 0) else Window(1, second - 1, first);
      Room(c, first, second, later - c.size) ==>
        Admits(c, w, later) && After(c, w, later) == Window(1, second, first)
  {
    hide Estimate, Room, Start, WindowOf;
    SecondWindow(c, later);
    RoomFits(c, first, second, later - c.size);
  }

  /** What the limit leaves for the second window, after first requests in the window before. */
  lemma {:induction false} SecondBurst(c: Config, at: int, first: nat, later: int, second: nat, lo: int, hi: int)
    requires Sane(c) && 0 <= at < c.size <= later < 2 * c.size && lo <= at && later < hi && first <= c.limit
    requires Room(c, first, second, later - c.size)
    ensures Run(c, Repeat(at, first) + Repeat(later, second))
         == if second == 0 then Window(0, first, 0) else Window(1, second, first)
    ensures AdmittedIn(c, Repeat(at, first) + Repeat(later, second), lo, hi) == first + second
  {
    hide Admits, AdmittedIn, After, Room, Run;
    var times := Repeat(at, first) + Repeat(later, second);
    if second == 0 {
      FirstBurst(c, at, first, lo, hi);
      assert times == Repeat(at, first);
    } else {
      var before := Repeat(at, first) + Repeat(later, second - 1);
      assert times == before + [later];
      RoomForFewer(c, first, second - 1, later - c.size);
      SecondBurst(c, at, first, later, second - 1, lo, hi);
      SecondFits(c, first, second, later);
      OneMore(c, before, later, lo, hi);
    }
  }

  lemma SecondShare(c: Config, n: int, offset: int)
    requires Sane(c) && 0 <= c.limit < n && BelowCap(c, n, offset)
    ensures 1 < offset && Room(c, c.limit, n - c.limit, offset - 1)
  {
    assert c.size * n == c.size * (n - c.limit - 1) + c.size * (c.limit + 1);
    ProductGrows(c.size, 0, n - c.limit - 1);
    assert c.limit * (c.size - (offset - 1)) == c.size * c.limit - c.limit * (offset - 1);
  }

  /** Every number of requests below the cap is let in by some run, whatever second of a window the
      size seconds begin at: the cap is exact. */
  lemma RollingCapIsReached(c: Config, from: int, n: nat) returns (times: seq<int>)
    requires Sane(c) && 0 <= c.limit && 0 <= from < c.size && BelowCap(c, n, from)
    ensures Ordered(times) && AdmittedIn(c, times, from, from + c.size) == n
  {
    hide Admits, Run, AdmittedIn, BelowCap, Room;
    if n <= c.limit {
      times := Repeat(c.size - 1, n);
      FirstBurst(c, c.size - 1, n, from, from + c.size);
    } else {
      SecondShare(c, n, from);
      times := Repeat(c.size - 1, c.limit) + Repeat(c.size + from - 1, n - c.limit);
      SecondBurst(c, c.size - 1, c.limit, c.size + from - 1, n - c.limit, from, from + c.size);
    }
  }

  // ---------------------------------------------------------------- the object

  class WindowManager {
    const config: Config
    var windowId: int
    var currentCount: int
    var previousCount: int
    var lastSeen: int

    constructor (config: Config, now: int)
      ensures this.config == config && View() == UNUSED && lastSeen == now
    {
      this.config := config;
      windowId, currentCount, previousCount, lastSeen := 0, 0, 0, now;
    }

    function View(): Window
      reads this
    {
      Window(windowId, currentCount, previousCount)
    }

    method Allow(now: int) returns (ok: bool)
      requires Sane(config) && 0 <= now
      modifies this
      ensures View() == After(config, old(View()), now) && lastSeen == now
      ensures ok == Admits(config, old(View()), now)
    {
      ghost var before := View();
      lastSeen := now;
      var id := now / config.size;
      if windowId == id {
      } else if id == windowId + 1 {
        previousCount := currentCount;
        currentCount := 0;
        windowId := id;
      } else {
        windowId := id;
        previousCount := 0;
        currentCount := 0;
      }
      assert View() == Rolled(before, id);
      var elapsed := now - id * config.size;
      var overlap := (config.size - elapsed) as real / config.size as real;
      if overlap < 0.0 {
        overlap := 0.0;
      }
      var estimate := currentCount as real + previousCount as real * overlap;
      assert estimate == Estimate(config, Rolled(before, id), elapsed);
      if estimate.Floor >= config.limit {
        return false;
      }
      currentCount := currentCount + 1;
      return true;
    }
  }
}
