/** What each statement means for the job it hits, and for every run that follows. */
module JobOutcomes {
  import opened Basics
  import opened JobMachine
  import opened JobRuns

  /** No row but the one with this id differs. */
  ghost predicate OthersKept(now: Rows, was: Rows, id: JobId) {
    forall other :: other != id ==> (other in now <==> other in was) && (other in was ==> now[other] == was[other])
  }

  /** What a job is, apart from where it stands in its life. */
  predicate SameJob(a: Job, b: Job) {
    a.queue == b.queue && a.priority == b.priority && a.maxAttempts == b.maxAttempts && a.createdAt == b.createdAt
  }

  // ---------------------------------------------------------------- rows at rest

  lemma PendingStep(s: State, e: Event, id: JobId)
    requires id in s.rows && s.rows[id].status == Pending && s.now < s.rows[id].runAt
    ensures id in Next(s, e).rows && Next(s, e).rows[id] == s.rows[id] && s.now <= Next(s, e).now
  {
  }

  /** Until its time comes nothing touches a pending job: no worker gets it early. */
  lemma {:induction false} PendingWaits(s: State, es: seq<Event>, id: JobId)
    requires id in s.rows && s.rows[id].status == Pending && Run(s, es).now < s.rows[id].runAt
    ensures id in Run(s, es).rows && Run(s, es).rows[id] == s.rows[id]
  {
    hide Next;
    if es != [] {
      var mid := Run(s, es[..|es| - 1]);
      ClockRises(mid, es[|es| - 1]);
      PendingWaits(s, es[..|es| - 1], id);
      PendingStep(mid, es[|es| - 1], id);
    }
  }

  lemma SettledStep(s: State, e: Event, id: JobId)
    requires id in s.rows && s.rows[id].status in {Completed, Dead} && !Resets(s, e, id)
    ensures id in Next(s, e).rows && Next(s, e).rows[id] == s.rows[id]
  {
  }

  /** A completed job, and a dead one that is not reset, stays exactly as it is. */
  lemma {:induction false} SettledStays(s: State, es: seq<Event>, id: JobId)
    requires id in s.rows
    requires s.rows[id].status == Completed || (s.rows[id].status == Dead && ResetCount(s, es, id) == 0)
    ensures id in Run(s, es).rows && Run(s, es).rows[id] == s.rows[id]
  {
    hide Next;
    if es != [] {
      SettledStays(s, es[..|es| - 1], id);
      SettledStep(Run(s, es[..|es| - 1]), es[|es| - 1], id);
    }
  }

  // ---------------------------------------------------------------- create

  /** A new job waits, with no attempt and no lease, for the time it was given or for nothing. */
  lemma CreateOutcome(s: State, id: JobId, queue: string, priority: int, maxAttempts: int, at: Option<int>)
    requires id !in s.rows
    ensures var s' := Next(s, Create(id, queue, priority, maxAttempts, at));
      && id in s'.rows && OthersKept(s'.rows, s.rows, id) && s'.now == s.now && s'.inflight == s.inflight
      && var j := s'.rows[id];
         && j.status == Pending && j.attempts == 0 && j.leaseToken == 0
         && j.leaseOwner == None && j.leaseUntil == None && j.lastError == None
         && j.priority == priority && j.createdAt == s.now && j.updatedAt == s.now
         && (queue != "" ==> j.queue == queue) && (queue == "" ==> j.queue == "default")
         && (maxAttempts > 0 ==> j.maxAttempts == maxAttempts) && (maxAttempts <= 0 ==> j.maxAttempts == 5)
         && (at.Some? ==> j.runAt == at.value) && (at == None ==> j.runAt == s.now)
  {
  }

  // ---------------------------------------------------------------- claim

  /** A claim is accepted only for a pending job that is due, has an attempt left and is in one of the
      queues, and then for each such job; refused, it changes nothing. */
  lemma ClaimAcceptedIff(s: State, id: JobId, queues: seq<string>, worker: string, seconds: int)
    ensures var (s', reply) := Step(s, Claim(id, queues, worker, seconds));
      && (reply == Done <==>
            id in s.rows && s.rows[id].status == Pending && s.rows[id].runAt <= s.now
            && s.rows[id].attempts < s.rows[id].maxAttempts && s.rows[id].queue in queues)
      && (reply != Done ==> s' == s)
  {
  }

  /** An accepted claim spends an attempt, issues the next token, and gives the worker the job alone for
      the seconds it asked for. */
  lemma ClaimOutcome(s: State, id: JobId, queues: seq<string>, worker: string, seconds: nat, es: seq<Event>)
    requires Step(s, Claim(id, queues, worker, seconds)).1 == Done
    ensures id in s.rows
    ensures var s' := Next(s, Claim(id, queues, worker, seconds));
      && id in s'.rows && OthersKept(s'.rows, s.rows, id)
      && var j, j' := s.rows[id], s'.rows[id];
         && j'.status == Running && j'.leaseOwner == Some(worker)
         && j'.leaseUntil == Some(s.now + seconds * 1_000_000)
         && j'.attempts == j.attempts + 1 && j'.leaseToken == j.leaseToken + 1
         && SameJob(j', j) && j'.runAt == j.runAt && j'.lastError == j.lastError && j'.updatedAt == s.now
         && (Run(s', es).now <= s.now + seconds * 1_000_000 && HolderIsSilent(s', es, id, j.leaseToken + 1) ==>
               id in Run(s', es).rows && Run(s', es).rows[id] == j')
  {
    var s' := Next(s, Claim(id, queues, worker, seconds));
    if Run(s', es).now <= s.now + seconds * 1_000_000 && HolderIsSilent(s', es, id, s.rows[id].leaseToken + 1) {
      LeaseIsExclusive(s', es, id);
    }
  }

  // ---------------------------------------------------------------- ack

  /** An accepted ack completes the job for good: no run ever changes it again. */
  lemma AckOutcome(s: State, id: JobId, token: int, es: seq<Event>)
    requires Step(s, Ack(id, token)).1 == Done
    ensures id in s.rows && s.rows[id].status == Running && s.rows[id].leaseToken == token
    ensures var s' := Next(s, Ack(id, token));
      && id in s'.rows && OthersKept(s'.rows, s.rows, id)
      && var j, j' := s.rows[id], s'.rows[id];
         && j'.status == Completed && j'.leaseUntil == None && j'.leaseOwner == j.leaseOwner && SameJob(j', j)
         && j'.attempts == j.attempts && j'.leaseToken == j.leaseToken && j'.lastError == j.lastError
         && j'.runAt == j.runAt && j'.updatedAt == s.now
         && id in Run(s', es).rows && Run(s', es).rows[id] == j'
  {
    SettledStays(Next(s, Ack(id, token)), es, id);
  }

  /** An ack or a nack whose token is not the one the job is running with changes nothing, and is told
      whether the job is there at all. */
  lemma RefusedOutcome(s: State, id: JobId, token: int, req: nat, permanent: bool, error: string)
    requires !(id in s.rows && s.rows[id].status == Running && s.rows[id].leaseToken == token)
    ensures var reply := if id in s.rows then Stale else NotFound;
      && Step(s, Ack(id, token)) == (s, reply)
      && Step(s, NackBegin(req, id, token, permanent, error)) == (s, reply)
  {
  }

  // ---------------------------------------------------------------- nack

  /** The SELECT of a nack leaves the table alone and remembers the request with what it read. */
  lemma BeginOutcome(s: State, req: nat, id: JobId, token: int, permanent: bool, error: string)
    requires id in s.rows && s.rows[id].status == Running && s.rows[id].leaseToken == token
    ensures var (s', reply) := Step(s, NackBegin(req, id, token, permanent, error));
      && reply == Waiting && s'.rows == s.rows && s'.now == s.now && s'.inflight.Keys == s.inflight.Keys + {req}
      && (forall other :: other in s.inflight && other != req ==> s'.inflight[other] == s.inflight[other])
      && var n := s'.inflight[req];
         && n.id == id && n.token == token && n.permanent == permanent && n.error == error
         && n.attempts == s.rows[id].attempts && n.maxAttempts == s.rows[id].maxAttempts
  {
  }

  /** The UPDATE of a nack whose row is no longer held changes no row and reports a stale token. */
  lemma LateNackOutcome(s: State, req: nat, delay: nat)
    requires req in s.inflight && !StillHeld(s, req)
    ensures Next(s, NackFinish(req, delay)).rows == s.rows && Step(s, NackFinish(req, delay)).1 == Stale
    ensures Next(s, NackFinish(req, delay)).inflight == s.inflight - {req}
  {
  }

  /** The row is held with the token the nack was read with. */
  predicate StillHeld(s: State, req: nat) {
    req in s.inflight
    && var n := s.inflight[req];
       n.id in s.rows && s.rows[n.id].status == Running && s.rows[n.id].leaseToken == n.token
  }

  predicate MayRetry(s: State, req: nat)
    requires StillHeld(s, req)
  {
    var n := s.inflight[req];
    !n.permanent && s.rows[n.id].attempts < s.rows[n.id].maxAttempts
  }

  /** A nack with an attempt left puts the job back, keeping its attempts and token, with the error noted
      and a time delay ahead. */
  lemma RetryOutcome(s: State, req: nat, delay: nat)
    requires Inv(s) && StillHeld(s, req) && MayRetry(s, req)
    ensures var n := s.inflight[req];
      var s' := Next(s, NackFinish(req, delay));
      && n.id in s'.rows && OthersKept(s'.rows, s.rows, n.id) && s'.now == s.now
      && var j, j' := s.rows[n.id], s'.rows[n.id];
         && j'.status == Pending && j'.leaseOwner == None && j'.leaseUntil == None
         && j'.attempts == j.attempts && j'.leaseToken == j.leaseToken && SameJob(j', j)
         && j'.lastError == Some(n.error) && j'.runAt == s.now + delay && j'.updatedAt == s.now
  {
  }

  /** Before the delay is over no events at all change the job or make it claimable. */
  lemma RetryWaits(s: State, req: nat, delay: nat, es: seq<Event>, queues: seq<string>)
    requires Inv(s) && StillHeld(s, req) && MayRetry(s, req)
    requires Run(Next(s, NackFinish(req, delay)), es).now < s.now + delay
    ensures var id := s.inflight[req].id;
      var s' := Next(s, NackFinish(req, delay));
      && id in Run(s', es).rows && id in s'.rows && Run(s', es).rows[id] == s'.rows[id]
      && !Eligible(Run(s', es).rows, Run(s', es).now, queues, id)
  {
    RetryOutcome(s, req, delay);
    PendingWaits(Next(s, NackFinish(req, delay)), es, s.inflight[req].id);
  }

  /** Once it is over a worker that serves the queue gets the job, with one more attempt spent. */
  lemma RetryComesBack(s: State, req: nat, delay: nat, queues: seq<string>, worker: string, seconds: nat)
    requires Inv(s) && StillHeld(s, req) && MayRetry(s, req) && s.rows[s.inflight[req].id].queue in queues
    ensures var id := s.inflight[req].id;
      var due := Next(Next(s, NackFinish(req, delay)), Tick(delay));
      var taken := Next(due, Claim(id, queues, worker, seconds));
      && Eligible(due.rows, due.now, queues, id)
      && id in taken.rows && taken.rows[id].status == Running && taken.rows[id].leaseOwner == Some(worker)
      && taken.rows[id].attempts == s.rows[id].attempts + 1
  {
    RetryOutcome(s, req, delay);
    var due := Next(Next(s, NackFinish(req, delay)), Tick(delay));
    ClaimAcceptedIff(due, s.inflight[req].id, queues, worker, seconds);
    ClaimOutcome(due, s.inflight[req].id, queues, worker, seconds, []);
  }

  /** A permanent nack, or one of the last attempt, kills the job; it stays dead until it is reset. */
  lemma KillOutcome(s: State, req: nat, delay: nat, es: seq<Event>)
    requires Inv(s) && StillHeld(s, req) && !MayRetry(s, req)
    ensures var n := s.inflight[req];
      var s' := Next(s, NackFinish(req, delay));
      && n.id in s'.rows && OthersKept(s'.rows, s.rows, n.id)
      && var j, j' := s.rows[n.id], s'.rows[n.id];
         && j'.status == Dead && j'.leaseOwner == None && j'.leaseUntil == None
         && j'.attempts == j.attempts && j'.leaseToken == j.leaseToken && SameJob(j', j)
         && j'.lastError == Some(n.error) && j'.runAt == j.runAt && j'.updatedAt == s.now
         && (ResetCount(s', es, n.id) == 0 ==> n.id in Run(s', es).rows && Run(s', es).rows[n.id] == j')
  {
    var s' := Next(s, NackFinish(req, delay));
    if ResetCount(s', es, s.inflight[req].id) == 0 {
      SettledStays(s', es, s.inflight[req].id);
    }
  }

  // ---------------------------------------------------------------- heartbeat

  /** Only the worker that holds the lease, with its token, can extend it. */
  lemma HeartbeatAcceptedIff(s: State, id: JobId, token: int, seconds: int, worker: string)
    ensures var (s', reply) := Step(s, Heartbeat(id, token, seconds, worker));
      && (reply == Done <==>
            id in s.rows && s.rows[id].status == Running && s.rows[id].leaseToken == token
            && s.rows[id].leaseOwner == Some(worker))
      && (reply != Done ==> s' == s && reply == if id in s.rows then Stale else NotFound)
  {
  }

  /** From an accepted heartbeat on, the holder has the job alone for the seconds it asked for: no reaping
      and nothing else touches the row in that time. */
  lemma HeartbeatOutcome(s: State, id: JobId, token: int, seconds: nat, worker: string, es: seq<Event>)
    requires Step(s, Heartbeat(id, token, seconds, worker)).1 == Done
    ensures id in s.rows
    ensures var s' := Next(s, Heartbeat(id, token, seconds, worker));
      && id in s'.rows && OthersKept(s'.rows, s.rows, id)
      && var j, j' := s.rows[id], s'.rows[id];
         && j'.leaseUntil == Some(s.now + seconds * 1_000_000)
         && j' == j.(leaseUntil := j'.leaseUntil, updatedAt := s.now)
         && (Run(s', es).now <= s.now + seconds * 1_000_000 && HolderIsSilent(s', es, id, token) ==>
               id in Run(s', es).rows && Run(s', es).rows[id] == j')
  {
    var s' := Next(s, Heartbeat(id, token, seconds, worker));
    if Run(s', es).now <= s.now + seconds * 1_000_000 && HolderIsSilent(s', es, id, token) {
      LeaseIsExclusive(s', es, id);
    }
  }

  // ---------------------------------------------------------------- reap

  /** A running job is one whose time has come. */
  ghost predicate RunningIsDue(s: State) {
    forall id :: id in s.rows && s.rows[id].status == Running ==> s.rows[id].runAt <= s.now
  }

  lemma DueStep(s: State, e: Event)
    requires RunningIsDue(s)
    ensures RunningIsDue(Next(s, e))
  {
  }

  lemma {:induction false} DueRun(now: int, es: seq<Event>)
    ensures RunningIsDue(Run(Init(now), es))
  {
    hide Next, RunningIsDue;
    if es == [] {
      assert RunningIsDue(Init(now)) by { NothingRuns(now); }
    } else {
      DueRun(now, es[..|es| - 1]);
      DueStep(Run(Init(now), es[..|es| - 1]), es[|es| - 1]);
    }
  }

  lemma NothingRuns(now: int)
    ensures RunningIsDue(Init(now))
  {
  }

  /** In every run, a reaped job with an attempt left can be claimed at once, with its next token. */
  lemma ReapedIsClaimable(now: int, es: seq<Event>, id: JobId, queues: seq<string>, worker: string, seconds: nat)
    requires var s := Run(Init(now), es);
      && id in s.rows && s.rows[id].status == Running && s.rows[id].attempts < s.rows[id].maxAttempts
      && s.rows[id].queue in queues && s.rows[id].leaseUntil.Some? && s.rows[id].leaseUntil.value < s.now
    ensures var s := Run(Init(now), es);
      var free := Next(s, Reap);
      var taken := Next(free, Claim(id, queues, worker, seconds));
      && id in free.rows && free.rows[id].status == Pending && free.rows[id].runAt == s.rows[id].runAt
      && free.rows[id].leaseOwner == None && free.rows[id].leaseUntil == None
      && SameJob(free.rows[id], s.rows[id]) && free.rows[id].leaseToken == s.rows[id].leaseToken
      && free.rows[id].lastError == s.rows[id].lastError && free.rows[id].updatedAt == s.now
      && id in taken.rows && taken.rows[id].status == Running
      && taken.rows[id].leaseToken == s.rows[id].leaseToken + 1
  {
    DueRun(now, es);
  }

  /** The reaper touches only running jobs whose lease has ended. */
  lemma ReapSpares(s: State, id: JobId)
    requires id in s.rows
    requires s.rows[id].status != Running || s.rows[id].leaseUntil == None || s.now <= s.rows[id].leaseUntil.value
    ensures id in Next(s, Reap).rows && Next(s, Reap).rows[id] == s.rows[id]
  {
  }

  // ---------------------------------------------------------------- reset

  /** A reset is accepted only for a dead job, and gives it all its attempts again, to be claimed at once. */
  lemma ResetOutcome(s: State, id: JobId)
    ensures var (s', reply) := Step(s, Reset(id));
      && (reply == Done <==> id in s.rows && s.rows[id].status == Dead)
      && (reply == NotFound <==> id !in s.rows)
      && (reply != Done ==> s' == s)
      && (reply == Done ==>
            && id in s'.rows && OthersKept(s'.rows, s.rows, id)
            && var j, j' := s.rows[id], s'.rows[id];
               && j'.status == Pending && j'.attempts == 0 && j'.leaseToken == 0 && j'.runAt == s.now
               && j'.leaseOwner == None && j'.leaseUntil == None && SameJob(j', j) && j'.lastError == j.lastError
               && j'.updatedAt == s.now)
  {
  }
}
