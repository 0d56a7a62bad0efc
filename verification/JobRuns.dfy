/** Promises about whole runs of the job queue: fencing, bounded life cycles, jobs that get stuck,
    and conservation of jobs. */
module JobRuns {
  import opened Basics
  import opened JobMachine

  // ---------------------------------------------------------------- what a step does to one job

  /** The step takes the job from pending to running. */
  predicate Claims(s: State, e: Event, id: JobId) {
    e.Claim? && e.id == id && Eligible(s.rows, s.now, e.queues, id)
  }

  /** The step revives the job from the dead letters. */
  predicate Resets(s: State, e: Event, id: JobId) {
    e.Reset? && e.id == id && id in s.rows && s.rows[id].status == Dead
  }

  function CountIf(b: bool): nat {
    if b then 1 else 0
  }

  function ClaimCount(s: State, es: seq<Event>, id: JobId): nat {
    if es == [] then 0
    else ClaimCount(s, es[..|es| - 1], id) + CountIf(Claims(Run(s, es[..|es| - 1]), es[|es| - 1], id))
  }

  function ResetCount(s: State, es: seq<Event>, id: JobId): nat {
    if es == [] then 0
    else ResetCount(s, es[..|es| - 1], id) + CountIf(Resets(Run(s, es[..|es| - 1]), es[|es| - 1], id))
  }

  lemma {:induction false} RunAppend(s: State, es: seq<Event>, more: seq<Event>, id: JobId)
    ensures Run(s, es + more) == Run(Run(s, es), more)
    ensures ResetCount(s, es + more, id) == ResetCount(s, es, id) + ResetCount(Run(s, es), more, id)
    ensures ClaimCount(s, es + more, id) == ClaimCount(s, es, id) + ClaimCount(Run(s, es), more, id)
    decreases |more|
  {
    if more == [] {
      assert es + more == es;
    } else {
      RunAppend(s, es, more[..|more| - 1], id);
      assert (es + more)[..|es + more| - 1] == es + more[..|more| - 1];
    }
  }

  lemma TokenStep(s: State, e: Event, id: JobId)
    requires Inv(s) && id in s.rows
    ensures id in Next(s, e).rows
    ensures Claims(s, e, id) ==> Next(s, e).rows[id].leaseToken == s.rows[id].leaseToken + 1
    ensures Resets(s, e, id) ==> Next(s, e).rows[id].leaseToken == 0
    ensures !Claims(s, e, id) && !Resets(s, e, id) ==> Next(s, e).rows[id].leaseToken == s.rows[id].leaseToken
  {
  }

  // ---------------------------------------------------------------- fencing

  /** Without a reset, the token counts the claims. */
  lemma {:induction false} TokenCountsClaims(s: State, es: seq<Event>, id: JobId)
    requires Inv(s) && id in s.rows && ResetCount(s, es, id) == 0
    ensures id in Run(s, es).rows
    ensures Run(s, es).rows[id].leaseToken == s.rows[id].leaseToken + ClaimCount(s, es, id)
  {
    if es != [] {
      var front := es[..|es| - 1];
      TokenCountsClaims(s, front, id);
      InvRun(s, front);
      TokenStep(Run(s, front), es[|es| - 1], id);
    }
  }

  lemma {:induction false} RowsStayRun(s: State, es: seq<Event>, id: JobId)
    requires id in s.rows
    ensures id in Run(s, es).rows
  {
    if es != [] {
      RowsStayRun(s, es[..|es| - 1], id);
      RowsStay(Run(s, es[..|es| - 1]), es[|es| - 1], id);
    }
  }

  /** The claims since the last reset of the run; a run without a reset starts from the first token. */
  function IssuedSince(s: State, es: seq<Event>, id: JobId): int
    requires id in s.rows
  {
    if es == [] then s.rows[id].leaseToken
    else
      var mid, e := Run(s, es[..|es| - 1]), es[|es| - 1];
      if Resets(mid, e, id) then 0 else IssuedSince(s, es[..|es| - 1], id) + CountIf(Claims(mid, e, id))
  }

  /** In every run, resets included, the token is the number of claims since the last reset. */
  lemma {:induction false} TokenIsIssuedSince(s: State, es: seq<Event>, id: JobId)
    requires Inv(s) && id in s.rows
    ensures id in Run(s, es).rows && Run(s, es).rows[id].leaseToken == IssuedSince(s, es, id)
  {
    if es != [] {
      var front := es[..|es| - 1];
      TokenIsIssuedSince(s, front, id);
      InvRun(s, front);
      TokenStep(Run(s, front), es[|es| - 1], id);
    }
  }

  /** Over every run the pair (resets so far, token) never falls in lexicographic order, and it rises
      whenever the job is claimed on the way. */
  lemma FencingOrder(s: State, es: seq<Event>, more: seq<Event>, id: JobId)
    requires Inv(s) && id in s.rows
    ensures id in Run(s, es).rows && id in Run(s, es + more).rows
    ensures var (r, t) := (ResetCount(s, es, id), Run(s, es).rows[id].leaseToken);
      var (r', t') := (ResetCount(s, es + more, id), Run(s, es + more).rows[id].leaseToken);
      && (r < r' || (r == r' && t <= t'))
      && (ClaimCount(Run(s, es), more, id) > 0 ==> r < r' || (r == r' && t < t'))
  {
    RunAppend(s, es, more, id);
    RowsStayRun(s, es, id);
    RowsStayRun(s, es + more, id);
    InvRun(s, es);
    if ResetCount(Run(s, es), more, id) == 0 {
      TokenCountsClaims(Run(s, es), more, id);
    }
  }

  /** A request that carries a token for the job. */
  predicate Presents(e: Event, id: JobId, token: int) {
    match e
    case Ack(i, t) => i == id && t == token
    case NackBegin(_, i, t, _, _) => i == id && t == token
    case Heartbeat(i, t, _, _) => i == id && t == token
    case _ => false
  }

  /** Once the job has been claimed again without a reset, every request with an older token changes
      nothing and is told its token is stale. */
  lemma OldTokenIsFenced(s: State, es: seq<Event>, id: JobId, token: int, e: Event)
    requires Inv(s) && id in s.rows && token <= s.rows[id].leaseToken
    requires ResetCount(s, es, id) == 0 && ClaimCount(s, es, id) > 0
    requires Presents(e, id, token)
    ensures Step(Run(s, es), e) == (Run(s, es), Stale)
  {
    TokenCountsClaims(s, es, id);
  }

  /** A worker that holds a token can complete the job, after any events at all, exactly when the job
      is running and its token is the number of claims since the last reset. */
  lemma AckAcceptedIff(s: State, es: seq<Event>, id: JobId, token: int)
    requires Inv(s) && id in s.rows
    ensures id in Run(s, es).rows
    ensures Step(Run(s, es), Ack(id, token)).1 == Done
       <==> Run(s, es).rows[id].status == Running && token == IssuedSince(s, es, id)
  {
    TokenIsIssuedSince(s, es, id);
  }

  /** The nack UPDATE of a reading taken before a later claim is refused as well. */
  lemma OldNackIsFenced(s: State, es: seq<Event>, req: nat, delay: nat)
    requires Inv(s) && req in s.inflight && req in Run(s, es).inflight
    requires Run(s, es).inflight[req] == s.inflight[req]
    requires var n := s.inflight[req];
      n.token <= s.rows[n.id].leaseToken && ResetCount(s, es, n.id) == 0 && ClaimCount(s, es, n.id) > 0
    ensures Next(Run(s, es), NackFinish(req, delay)).rows == Run(s, es).rows
    ensures Step(Run(s, es), NackFinish(req, delay)).1 == Stale
  {
    TokenCountsClaims(s, es, s.inflight[req].id);
  }

  /** A reset starts the tokens again from 0, so after it a token can be issued a second time and
      its first holder is let in: the monotonic fence holds only between resets. */
  lemma ResetReissuesTokens(now: int)
    ensures var id := JobId(7);
      var setup := [Create(id, "q", 0, 1, None), Claim(id, ["q"], "first", 30), NackBegin(0, id, 1, true, "boom"),
                    NackFinish(0, 0), Reset(id), Claim(id, ["q"], "second", 30)];
      var s := Run(Init(now), setup);
      && id in s.rows && s.rows[id].leaseOwner == Some("second")
      && Step(s, Ack(id, 1)).1 == Done && Next(s, Ack(id, 1)).rows[id].status == Completed
  {
    var id := JobId(7);
    var e0, e1 := Create(id, "q", 0, 1, None), Claim(id, ["q"], "first", 30);
    var e2, e3 := NackBegin(0, id, 1, true, "boom"), NackFinish(0, 0);
    var e4, e5 := Reset(id), Claim(id, ["q"], "second", 30);
    var s0 := Init(now);
    var s1 := Next(s0, e0);
    assert Run(s0, []) == s0;
    assert [e0][..0] == [];
    assert Run(s0, [e0]) == s1;
    assert [e0, e1][..1] == [e0];
    var s2 := Next(s1, e1);
    assert Run(s0, [e0, e1]) == s2;
    assert s2.rows[id].leaseToken == 1 && s2.rows[id].status == Running;
    assert [e0, e1, e2][..2] == [e0, e1];
    var s3 := Next(s2, e2);
    assert Run(s0, [e0, e1, e2]) == s3;
    assert [e0, e1, e2, e3][..3] == [e0, e1, e2];
    var s4 := Next(s3, e3);
    assert Run(s0, [e0, e1, e2, e3]) == s4;
    assert s4.rows[id].status == Dead;
    assert [e0, e1, e2, e3, e4][..4] == [e0, e1, e2, e3];
    var s5 := Next(s4, e4);
    assert Run(s0, [e0, e1, e2, e3, e4]) == s5;
    assert [e0, e1, e2, e3, e4, e5][..5] == [e0, e1, e2, e3, e4];
  }

  // ---------------------------------------------------------------- bounded life cycles

  function Measure(j: Job): int {
    2 * (j.maxAttempts - j.attempts) + CountIf(j.status == Running)
  }

  function StatusChanges(s: State, es: seq<Event>, id: JobId): nat
    requires id in s.rows
  {
    if es == [] then 0
    else
      var front := Run(s, es[..|es| - 1]);
      StatusChanges(s, es[..|es| - 1], id)
      + CountIf(id in front.rows && Next(front, es[|es| - 1]).rows[id].status != front.rows[id].status)
  }

  lemma MeasureStep(s: State, e: Event, id: JobId)
    requires Inv(s) && id in s.rows && !Resets(s, e, id)
    ensures id in Next(s, e).rows
    ensures Measure(Next(s, e).rows[id])
         == Measure(s.rows[id]) - CountIf(Next(s, e).rows[id].status != s.rows[id].status)
  {
  }

  /** Between resets a job changes status at most twice per attempt it has left. */
  lemma {:induction false} LifeIsBounded(s: State, es: seq<Event>, id: JobId)
    requires Inv(s) && id in s.rows && ResetCount(s, es, id) == 0
    ensures id in Run(s, es).rows
    ensures Measure(Run(s, es).rows[id]) + StatusChanges(s, es, id) == Measure(s.rows[id])
    ensures StatusChanges(s, es, id) <= 2 * s.rows[id].maxAttempts
  {
    if es != [] {
      var front := es[..|es| - 1];
      LifeIsBounded(s, front, id);
      InvRun(s, front);
      MeasureStep(Run(s, front), es[|es| - 1], id);
    }
    InvRun(s, es);
    RowsStayRun(s, es, id);
    assert RowOk(Run(s, es).rows[id]) && RowOk(s.rows[id]);
  }

  // ---------------------------------------------------------------- exclusive leases

  /** The step speaks for the holder of the token: a request with it, or the second half of its nack. */
  predicate SpeaksFor(s: State, e: Event, id: JobId, token: int) {
    || Presents(e, id, token)
    || (e.NackFinish? && e.req in s.inflight && s.inflight[e.req].id == id && s.inflight[e.req].token == token)
  }

  predicate HolderIsSilent(s: State, es: seq<Event>, id: JobId, token: int) {
    es != [] ==>
      && HolderIsSilent(s, es[..|es| - 1], id, token)
      && !SpeaksFor(Run(s, es[..|es| - 1]), es[|es| - 1], id, token)
  }

  lemma ClockRises(s: State, e: Event)
    ensures s.now <= Next(s, e).now
  {
  }

  lemma SilentStep(s: State, e: Event, id: JobId)
    requires id in s.rows && s.rows[id].status == Running
    requires s.rows[id].leaseUntil.Some? && s.now <= s.rows[id].leaseUntil.value
    requires !SpeaksFor(s, e, id, s.rows[id].leaseToken)
    ensures id in Next(s, e).rows && Next(s, e).rows[id] == s.rows[id]
  {
  }

  /** Silence is silence at every event of the run. */
  lemma {:induction false} SilentThroughout(s: State, es: seq<Event>, id: JobId, token: int)
    ensures HolderIsSilent(s, es, id, token)
       <==> forall i :: 0 <= i < |es| ==> !SpeaksFor(Run(s, es[..i]), es[i], id, token)
  {
    hide Next, SpeaksFor;
    if es != [] {
      var front := es[..|es| - 1];
      SilentThroughout(s, front, id, token);
      forall i | 0 <= i < |front|
        ensures front[..i] == es[..i] && front[i] == es[i]
      {
      }
    }
  }

  /** A lease is exclusive until it ends: while the holder is silent and the clock has not passed the
      end of the lease, no claim, reaper, reset or other token touches the row. */
  lemma {:induction false} LeaseIsExclusive(s: State, es: seq<Event>, id: JobId)
    requires id in s.rows && s.rows[id].status == Running
    requires s.rows[id].leaseUntil.Some? && Run(s, es).now <= s.rows[id].leaseUntil.value
    requires HolderIsSilent(s, es, id, s.rows[id].leaseToken)
    ensures id in Run(s, es).rows && Run(s, es).rows[id] == s.rows[id]
  {
    hide Next, SpeaksFor;
    if es != [] {
      var mid := Run(s, es[..|es| - 1]);
      ClockRises(mid, es[|es| - 1]);
      LeaseIsExclusive(s, es[..|es| - 1], id);
      SilentStep(mid, es[|es| - 1], id);
    }
  }

  /** And it ends there: the first reaping after that returns the job to the queue, whatever else
      happened while the holder was silent. */
  lemma ExpiredLeaseIsReaped(s: State, es: seq<Event>, id: JobId, elapsed: nat)
    requires id in s.rows && s.rows[id].status == Running
    requires s.rows[id].leaseUntil.Some? && Run(s, es).now <= s.rows[id].leaseUntil.value < Run(s, es).now + elapsed
    requires HolderIsSilent(s, es, id, s.rows[id].leaseToken)
    ensures var late := Run(s, es + [Tick(elapsed), Reap]);
      && id in late.rows && late.rows[id].status == Pending && late.rows[id].leaseOwner == None
      && late.rows[id].attempts == s.rows[id].attempts
  {
    LeaseIsExclusive(s, es, id);
    var all := es + [Tick(elapsed), Reap];
    assert all[..|all| - 1] == es + [Tick(elapsed)];
    assert (es + [Tick(elapsed)])[..|es|] == es;
  }

  // ---------------------------------------------------------------- stuck jobs

  /** Pending, but with no attempt left: no claim will take it. */
  predicate Stuck(j: Job) {
    j.status == Pending && j.attempts >= j.maxAttempts
  }

  /** Only the reaper makes a job stuck, by taking back the lease of its last attempt. */
  lemma StuckOnlyByReaper(s: State, e: Event, id: JobId)
    requires Inv(s) && id in s.rows && !Stuck(s.rows[id])
    ensures id in Next(s, e).rows
    ensures Stuck(Next(s, e).rows[id]) <==>
      e.Reap? && Expired(s.rows[id], s.now) && s.rows[id].attempts == s.rows[id].maxAttempts
  {
  }

  /** A new job is never stuck. */
  lemma NewJobNotStuck(s: State, e: Event, id: JobId)
    requires Inv(s) && id !in s.rows && id in Next(s, e).rows
    ensures !Stuck(Next(s, e).rows[id])
  {
  }

  /** And nothing ever frees it: not a claim, not the reaper, not a reset of dead jobs. */
  lemma {:induction false} StuckForever(s: State, es: seq<Event>, id: JobId)
    requires Inv(s) && id in s.rows && Stuck(s.rows[id])
    ensures id in Run(s, es).rows && Run(s, es).rows[id] == s.rows[id]
  {
    if es != [] {
      StuckForever(s, es[..|es| - 1], id);
    }
  }

  /** A job does get stuck: one attempt, one claim, and a lease that runs out. */
  lemma JobGetsStuck(now: int)
    ensures var id := JobId(7);
      var s := Run(Init(now), [Create(id, "q", 0, 1, None), Claim(id, ["q"], "w", 30), Tick(31 * SECOND), Reap]);
      id in s.rows && Stuck(s.rows[id])
  {
    var id := JobId(7);
    var e0, e1, e2, e3 := Create(id, "q", 0, 1, None), Claim(id, ["q"], "w", 30), Tick(31 * SECOND), Reap;
    var s0 := Init(now);
    assert Run(s0, []) == s0;
    assert [e0][..0] == [];
    var s1 := Next(s0, e0);
    assert Run(s0, [e0]) == s1;
    assert [e0, e1][..1] == [e0];
    var s2 := Next(s1, e1);
    assert Run(s0, [e0, e1]) == s2;
    assert s2.rows[id].status == Running && s2.rows[id].leaseUntil == Some(now + 30 * SECOND);
    assert [e0, e1, e2][..2] == [e0, e1];
    var s3 := Next(s2, e2);
    assert Run(s0, [e0, e1, e2]) == s3;
    assert [e0, e1, e2, e3][..3] == [e0, e1, e2];
  }

  // ---------------------------------------------------------------- conservation

  ghost function InStatus(rows: Rows, queue: string, status: Status): set<JobId> {
    set id | id in rows && rows[id].queue == queue && rows[id].status == status
  }

  ghost function InQueue(rows: Rows, queue: string): set<JobId> {
    set id | id in rows && rows[id].queue == queue
  }

  lemma DisjointSizes<T>(a: set<T>, b: set<T>, c: set<T>, d: set<T>, all: set<T>)
    requires a !! b && a !! c && a !! d && b !! c && b !! d && c !! d
    requires forall x :: x in all <==> x in a || x in b || x in c || x in d
    ensures |a| + |b| + |c| + |d| == |all|
  {
    assert all == (a + b) + (c + d);
    assert |a + b| == |a| + |b| && |c + d| == |c| + |d|;
  }

  /** Every job of a queue is pending, running, completed or dead. */
  lemma StatusesPartition(s: State, queue: string)
    requires Inv(s)
    ensures |InStatus(s.rows, queue, Pending)| + |InStatus(s.rows, queue, Running)|
          + |InStatus(s.rows, queue, Completed)| + |InStatus(s.rows, queue, Dead)| == |InQueue(s.rows, queue)|
    ensures InStatus(s.rows, queue, Failed) == {}
  {
    forall id | id in InQueue(s.rows, queue)
      ensures s.rows[id].status in {Pending, Running, Completed, Dead}
    {
      assert RowOk(s.rows[id]);
    }
    DisjointSizes(InStatus(s.rows, queue, Pending), InStatus(s.rows, queue, Running),
                  InStatus(s.rows, queue, Completed), InStatus(s.rows, queue, Dead), InQueue(s.rows, queue));
  }

  /** The step stores a new job in the queue. */
  predicate Submits(s: State, e: Event, queue: string) {
    e.Create? && e.id !in s.rows && queue == if e.queue == "" then DEFAULT_QUEUE else e.queue
  }

  function Submissions(s: State, es: seq<Event>, queue: string): nat {
    if es == [] then 0
    else Submissions(s, es[..|es| - 1], queue) + CountIf(Submits(Run(s, es[..|es| - 1]), es[|es| - 1], queue))
  }

  lemma QueueStep(s: State, e: Event, queue: string, id: JobId)
    ensures id in InQueue(Next(s, e).rows, queue)
       <==> id in InQueue(s.rows, queue) || (Submits(s, e, queue) && id == e.id)
  {
    if id in s.rows {
      RowsStay(s, e, id);
    }
  }

  lemma SubmitStep(s: State, e: Event, queue: string)
    ensures |InQueue(Next(s, e).rows, queue)| == |InQueue(s.rows, queue)| + CountIf(Submits(s, e, queue))
  {
    var before, after := InQueue(s.rows, queue), InQueue(Next(s, e).rows, queue);
    forall id
      ensures id in after <==> id in before || (Submits(s, e, queue) && id == e.id)
    {
      QueueStep(s, e, queue, id);
    }
    if Submits(s, e, queue) {
      assert after == before + {e.id};
    } else {
      assert after == before;
    }
  }

  /** No job is lost or made up: from the empty table, the jobs of a queue number its submissions. */
  lemma {:induction false} JobsAreConserved(now: int, es: seq<Event>, queue: string)
    ensures |InQueue(Run(Init(now), es).rows, queue)| == Submissions(Init(now), es, queue)
  {
    if es != [] {
      JobsAreConserved(now, es[..|es| - 1], queue);
      SubmitStep(Run(Init(now), es[..|es| - 1]), es[|es| - 1], queue);
    }
  }
}
