/** The store whose methods run the SQL statements of job.go and stats.go on the table. */
module JobStore {
  import opened Basics
  import opened JobMachine
  import opened JobRuns

  datatype QueueStats = QueueStats(pending: nat, running: nat, completed: nat, failed: nat, dead: nat, total: nat)

  /** ORDER BY priority DESC, created_at ASC. */
  predicate Precedes(a: Job, b: Job) {
    a.priority > b.priority || (a.priority == b.priority && a.createdAt <= b.createdAt)
  }

  /** The row the claim takes: eligible, not locked by another transaction, and none of those
      comes before it. */
  ghost predicate IsBest(rows: Rows, now: int, queues: seq<string>, locked: set<JobId>, id: JobId) {
    && Eligible(rows, now, queues, id) && id !in locked
    && forall other :: Eligible(rows, now, queues, other) && other !in locked ==> Precedes(rows[id], rows[other])
  }

  class Store {
    var now: int
    var rows: Rows
    var inflight: map<nat, NackRead>

    function View(): State
      reads this
    {
      State(now, rows, inflight)
    }

    constructor (now: int)
      ensures View() == Init(now)
    {
      this.now := now;
      rows := map[];
      inflight := map[];
    }

    method Advance(elapsed: nat)
      modifies this`now
      ensures View() == Next(old(View()), Tick(elapsed))
    {
      now := now + elapsed;
    }

    method CreateJob(id: JobId, queue: string, priority: int, maxAttempts: int, at: Option<int>) returns (r: Reply)
      modifies this`rows
      ensures (View(), r) == Step(old(View()), Create(id, queue, priority, maxAttempts, at))
    {
      if id in rows {
        return NoJob;
      }
      rows := rows[id := NewJob(now, queue, priority, maxAttempts, at)];
      return Done;
    }

    method MarkComplete(id: JobId, token: int) returns (r: Reply)
      modifies this`rows
      ensures (View(), r) == Step(old(View()), Ack(id, token))
    {
      if Holds(rows, id, token) {
        rows := rows[id := Finished(rows[id], now)];
        return Done;
      }
      return Refused(rows, id);
    }

    /** The SELECT of MarkFailure. */
    method BeginFailure(req: nat, id: JobId, token: int, permanent: bool, error: string) returns (r: Reply)
      modifies this`inflight
      ensures (View(), r) == Step(old(View()), NackBegin(req, id, token, permanent, error))
    {
      if !Holds(rows, id, token) {
        return Refused(rows, id);
      }
      inflight := inflight[req := NackRead(id, token, rows[id].attempts, rows[id].maxAttempts, permanent, error)];
      return Waiting;
    }

    /** The decision and the guarded UPDATE of MarkFailure. */
    method FinishFailure(req: nat, delay: nat) returns (r: Reply)
      modifies this`rows, this`inflight
      ensures (View(), r) == Step(old(View()), NackFinish(req, delay))
    {
      if req !in inflight {
        return NoJob;
      }
      var n := inflight[req];
      inflight := inflight - {req};
      if !Holds(rows, n.id, n.token) {
        return Stale;
      }
      if n.permanent || n.attempts >= n.maxAttempts {
        rows := rows[n.id := Killed(rows[n.id], now, n.error)];
      } else {
        rows := rows[n.id := Retried(rows[n.id], now, n.error, delay)];
      }
      return Done;
    }

    method ExtendLease(id: JobId, token: int, seconds: int, worker: string) returns (r: Reply)
      modifies this`rows
      ensures (View(), r) == Step(old(View()), Heartbeat(id, token, seconds, worker))
    {
      if Holds(rows, id, token) && rows[id].leaseOwner == Some(worker) {
        rows := rows[id := Extended(rows[id], now, seconds)];
        return Done;
      }
      return Refused(rows, id);
    }

    method ResetDeadJob(id: JobId) returns (r: Reply)
      modifies this`rows
      ensures (View(), r) == Step(old(View()), Reset(id))
    {
      if id !in rows {
        return NotFound;
      }
      if rows[id].status != Dead {
        return NotDead;
      }
      rows := rows[id := Revived(rows[id], now)];
      return Done;
    }

    /** Take the best claimable row, if there is one outside the locked rows; the loop is the
        selection that ORDER BY with LIMIT 1 makes. */
    method ClaimPendingJob(queues: seq<string>, worker: string, seconds: int, locked: set<JobId>)
      returns (claimed: Option<JobId>)
      modifies this`rows
      ensures claimed == None ==>
        View() == old(View()) && forall id :: Eligible(rows, now, queues, id) ==> id in locked
      ensures claimed.Some? ==>
        IsBest(old(rows), now, queues, locked, claimed.value)
        && View() == Next(old(View()), Claim(claimed.value, queues, worker, seconds))
      ensures claimed.Some? ==>
        claimed.value !in locked && claimed.value in old(rows)
        && forall other :: Eligible(old(rows), now, queues, other) && other !in locked ==>
             var best, row := old(rows)[claimed.value], old(rows)[other];
             row.priority < best.priority || (row.priority == best.priority && best.createdAt <= row.createdAt)
    {
      claimed := None;
      var remaining := rows.Keys;
      while remaining != {}
        invariant remaining <= rows.Keys
        invariant claimed == None ==>
          forall id :: id in rows && id !in remaining && Eligible(rows, now, queues, id) ==> id in locked
        invariant claimed.Some? ==> claimed.value !in locked && Eligible(rows, now, queues, claimed.value)
        invariant claimed.Some? ==> forall id ::
          id in rows && id !in remaining && Eligible(rows, now, queues, id) && id !in locked ==>
            Precedes(rows[claimed.value], rows[id])
        decreases |remaining|
      {
        var id :| id in remaining;
        remaining := remaining - {id};
        if Eligible(rows, now, queues, id) && id !in locked {
          if claimed.None? || !Precedes(rows[claimed.value], rows[id]) {
            claimed := Some(id);
          }
        }
      }
      if claimed.Some? {
        rows := rows[claimed.value := Claimed(rows[claimed.value], now, worker, seconds)];
      }
    }

    /** Return every job with an expired lease to the queue; the count is the number of rows changed. */
    method ReapExpiredLeases() returns (count: nat)
      modifies this`rows
      ensures View() == Next(old(View()), Reap)
      ensures count == |set id | id in rows && rows[id] != old(rows)[id]|
    {
      ghost var before := rows;
      var expired := set id | id in rows && Expired(rows[id], now);
      rows := ReapedRows(rows, now);
      count := |expired|;
      assert (set id | id in rows && rows[id] != before[id]) == expired;
    }

    /** The counts of a queue add up: nothing is outside the four live statuses. */
    method GetStats(queue: string) returns (stats: QueueStats)
      ensures stats.total == |InQueue(rows, queue)|
      ensures stats.pending == |InStatus(rows, queue, Pending)| && stats.running == |InStatus(rows, queue, Running)|
      ensures stats.completed == |InStatus(rows, queue, Completed)| && stats.dead == |InStatus(rows, queue, Dead)|
      ensures stats.failed == |InStatus(rows, queue, Failed)|
      ensures Inv(View()) ==>
        stats.failed == 0 && stats.pending + stats.running + stats.completed + stats.dead == stats.total
    {
      var pending := CountStatus(queue, Pending);
      var running := CountStatus(queue, Running);
      var completed := CountStatus(queue, Completed);
      var failed := CountStatus(queue, Failed);
      var dead := CountStatus(queue, Dead);
      var inQueue := set id | id in rows && rows[id].queue == queue;
      assert inQueue == InQueue(rows, queue);
      stats := QueueStats(pending, running, completed, failed, dead, |inQueue|);
      if Inv(View()) {
        StatusesPartition(View(), queue);
      }
    }

    method CountStatus(queue: string, status: Status) returns (count: nat)
      ensures count == |InStatus(rows, queue, status)|
    {
      count := |set id | id in rows && rows[id].queue == queue && rows[id].status == status|;
    }
  }
}
