/** The rows of the jobs table and the guarded SQL statements on them, as a step function.

    Workers are not trusted: any request may arrive at any time with any token.  A nack is two
    statements, a SELECT and a guarded UPDATE, with anything allowed in between; what the SELECT
    read is kept in the state until its UPDATE runs. */
module JobMachine {
  import opened Basics

  datatype JobId = JobId(uuid: nat)

  datatype Status = Pending | Running | Completed | Failed | Dead | Cancelled

  datatype Job = Job(
    queue: string, status: Status, priority: int, attempts: int, maxAttempts: int,
    leaseOwner: Option<string>, leaseUntil: Option<int>, leaseToken: int, lastError: Option<string>,
    runAt: int, createdAt: int, updatedAt: int)

  type Rows = map<JobId, Job>

  /** What the SELECT of a nack read, waiting for its UPDATE. */
  datatype NackRead = NackRead(id: JobId, token: int, attempts: int, maxAttempts: int, permanent: bool, error: string)

  datatype State = State(now: int, rows: Rows, inflight: map<nat, NackRead>)

  datatype Event =
    | Create(id: JobId, queue: string, priority: int, maxAttempts: int, at: Option<int>)
    | Claim(id: JobId, queues: seq<string>, worker: string, seconds: int)
    | Ack(id: JobId, token: int)
    | NackBegin(req: nat, id: JobId, token: int, permanent: bool, error: string)
    | NackFinish(req: nat, delay: nat)
    | Heartbeat(id: JobId, token: int, seconds: int, worker: string)
    | Reap
    | Reset(id: JobId)
    | Tick(elapsed: nat)

  datatype Reply = Done | Waiting | NotFound | Stale | NotDead | NoJob

  const SECOND := 1_000_000
  const DEFAULT_MAX_ATTEMPTS := 5
  const DEFAULT_QUEUE := "default"

  // ---------------------------------------------------------------- guards

  predicate Holds(rows: Rows, id: JobId, token: int) {
    id in rows && rows[id].status == Running && rows[id].leaseToken == token
  }

  predicate Eligible(rows: Rows, now: int, queues: seq<string>, id: JobId) {
    && id in rows && rows[id].status == Pending && rows[id].runAt <= now
    && rows[id].attempts < rows[id].maxAttempts && rows[id].queue in queues
  }

  predicate Expired(j: Job, now: int) {
    j.status == Running && j.leaseUntil.Some? && j.leaseUntil.value < now
  }

  function Refused(rows: Rows, id: JobId): Reply {
    if id in rows then Stale else NotFound
  }

  // ---------------------------------------------------------------- row updates

  function NewJob(now: int, queue: string, priority: int, maxAttempts: int, at: Option<int>): Job {
    Job(if queue == "" then DEFAULT_QUEUE else queue, Pending, priority, 0,
        if maxAttempts <= 0 then DEFAULT_MAX_ATTEMPTS else maxAttempts,
        None, None, 0, None, if at.Some? then at.value else now, now, now)
  }

  function Claimed(j: Job, now: int, worker: string, seconds: int): Job {
    j.(status := Running, leaseOwner := Some(worker), leaseUntil := Some(now + seconds * SECOND),
       attempts := j.attempts + 1, leaseToken := j.leaseToken + 1, updatedAt := now)
  }

  function Finished(j: Job, now: int): Job {
    j.(status := Completed, leaseUntil := None, updatedAt := now)
  }

  function Killed(j: Job, now: int, error: string): Job {
    j.(status := Dead, lastError := Some(error), leaseOwner := None, leaseUntil := None, updatedAt := now)
  }

  function Retried(j: Job, now: int, error: string, delay: nat): Job {
    j.(status := Pending, runAt := now + delay, lastError := Some(error), leaseOwner := None,
       leaseUntil := None, updatedAt := now)
  }

  function Extended(j: Job, now: int, seconds: int): Job {
    j.(leaseUntil := Some(now + seconds * SECOND), updatedAt := now)
  }

  function Reaped(j: Job, now: int): Job {
    j.(status := Pending, leaseOwner := None, leaseUntil := None, updatedAt := now)
  }

  function Revived(j: Job, now: int): Job {
    j.(status := Pending, attempts := 0, leaseOwner := None, leaseUntil := None, leaseToken := 0,
       runAt := now, updatedAt := now)
  }

  function ReapedRows(rows: Rows, now: int): Rows {
    map id | id in rows :: if Expired(rows[id], now) then Reaped(rows[id], now) else rows[id]
  }

  /** The guarded UPDATE of a nack, deciding on the attempts that were read earlier. */
  function NackedRows(rows: Rows, now: int, n: NackRead, delay: nat): Rows {
    if !Holds(rows, n.id, n.token) then rows
    else if n.permanent || n.attempts >= n.maxAttempts then rows[n.id := Killed(rows[n.id], now, n.error)]
    else rows[n.id := Retried(rows[n.id], now, n.error, delay)]
  }

  // ---------------------------------------------------------------- one statement

  function Step(s: State, e: Event): (State, Reply) {
    match e
    case Create(id, queue, priority, maxAttempts, at) =>
      if id in s.rows then (s, NoJob)
      else (s.(rows := s.rows[id := NewJob(s.now, queue, priority, maxAttempts, at)]), Done)
    case Claim(id, queues, worker, seconds) =>
      if Eligible(s.rows, s.now, queues, id)
      then (s.(rows := s.rows[id := Claimed(s.rows[id], s.now, worker, seconds)]), Done)
      else (s, NoJob)
    case Ack(id, token) =>
      if Holds(s.rows, id, token) then (s.(rows := s.rows[id := Finished(s.rows[id], s.now)]), Done)
      else (s, Refused(s.rows, id))
    case NackBegin(req, id, token, permanent, error) =>
      if Holds(s.rows, id, token) then
        var n := NackRead(id, token, s.rows[id].attempts, s.rows[id].maxAttempts, permanent, error);
        (s.(inflight := s.inflight[req := n]), Waiting)
      else (s, Refused(s.rows, id))
    case NackFinish(req, delay) =>
      if req !in s.inflight then (s, NoJob)
      else
        var n := s.inflight[req];
        (s.(rows := NackedRows(s.rows, s.now, n, delay), inflight := s.inflight - {req}),
         if Holds(s.rows, n.id, n.token) then Done else Stale)
    case Heartbeat(id, token, seconds, worker) =>
      if Holds(s.rows, id, token) && s.rows[id].leaseOwner == Some(worker)
      then (s.(rows := s.rows[id := Extended(s.rows[id], s.now, seconds)]), Done)
      else (s, Refused(s.rows, id))
    case Reap => (s.(rows := ReapedRows(s.rows, s.now)), Done)
    case Reset(id) =>
      if id !in s.rows then (s, NotFound)
      else if s.rows[id].status == Dead then (s.(rows := s.rows[id := Revived(s.rows[id], s.now)]), Done)
      else (s, NotDead)
    case Tick(elapsed) => (s.(now := s.now + elapsed), Done)
  }

  function Next(s: State, e: Event): State {
    Step(s, e).0
  }

  /** The state after a run of events. */
  function Run(s: State, es: seq<Event>): State {
    if es == [] then s else Next(Run(s, es[..|es| - 1]), es[|es| - 1])
  }

  function Init(now: int): State {
    State(now, map[], map[])
  }

  // ---------------------------------------------------------------- what every step keeps

  ghost predicate RowOk(j: Job) {
    && 0 <= j.attempts <= j.maxAttempts && 1 <= j.maxAttempts
    && j.leaseToken == j.attempts
    && (j.leaseUntil.Some? <==> j.status == Running)
    && (j.status == Running ==> j.leaseOwner.Some? && 1 <= j.attempts)
    && j.status != Failed && j.status != Cancelled
  }

  /** A SELECT's reading is about an existing row, and its attempts were its token. */
  ghost predicate ReadOk(rows: Rows, n: NackRead) {
    n.id in rows && n.attempts == n.token && n.maxAttempts == rows[n.id].maxAttempts
  }

  ghost predicate Inv(s: State) {
    && (forall id :: id in s.rows ==> RowOk(s.rows[id]))
    && (forall req :: req in s.inflight ==> ReadOk(s.rows, s.inflight[req]))
  }

  lemma InvInit(now: int)
    ensures Inv(Init(now))
  {
  }

  /** No statement removes a row or changes its queue, limit or creation time. */
  lemma RowsStay(s: State, e: Event, id: JobId)
    requires id in s.rows
    ensures id in Next(s, e).rows
    ensures Next(s, e).rows[id].maxAttempts == s.rows[id].maxAttempts
    ensures Next(s, e).rows[id].queue == s.rows[id].queue
    ensures Next(s, e).rows[id].createdAt == s.rows[id].createdAt
  {
  }

  lemma InvStep(s: State, e: Event)
    requires Inv(s)
    ensures Inv(Next(s, e))
  {
  }

  lemma {:induction false} InvRun(s: State, es: seq<Event>)
    requires Inv(s)
    ensures Inv(Run(s, es))
  {
    if es != [] {
      InvRun(s, es[..|es| - 1]);
      InvStep(Run(s, es[..|es| - 1]), es[|es| - 1]);
    }
  }

  // ---------------------------------------------------------------- a nack in two statements

  /** The nack as one statement, reading and deciding on the current row. */
  function AtomicNack(rows: Rows, now: int, id: JobId, token: int, permanent: bool, error: string, delay: nat)
    : (Rows, Reply)
  {
    if !Holds(rows, id, token) then (rows, Refused(rows, id))
    else if permanent || rows[id].attempts >= rows[id].maxAttempts
    then (rows[id := Killed(rows[id], now, error)], Done)
    else (rows[id := Retried(rows[id], now, error, delay)], Done)
  }

  /** A nack's UPDATE does exactly what the atomic nack would do at that moment, whatever happened
      since its SELECT. */
  lemma FinishIsAtomic(s: State, req: nat, delay: nat)
    requires Inv(s) && req in s.inflight
    ensures var n := s.inflight[req];
      var (rows, reply) := AtomicNack(s.rows, s.now, n.id, n.token, n.permanent, n.error, delay);
      Next(s, NackFinish(req, delay)).rows == rows && Step(s, NackFinish(req, delay)).1 == reply
  {
  }

  /** With any events between the SELECT and the UPDATE, resets included: if the UPDATE hits a row,
      the attempts and the limit read earlier are still the row's. */
  lemma ReadStillCurrent(s: State, req: nat, id: JobId, token: int, permanent: bool, error: string, es: seq<Event>)
    requires Inv(s) && Holds(s.rows, id, token)
    requires var s' := Run(Next(s, NackBegin(req, id, token, permanent, error)), es);
      Holds(s'.rows, id, token)
    ensures var s' := Run(Next(s, NackBegin(req, id, token, permanent, error)), es);
      s'.rows[id].attempts == s.rows[id].attempts && s'.rows[id].maxAttempts == s.rows[id].maxAttempts
  {
    var s1 := Next(s, NackBegin(req, id, token, permanent, error));
    InvStep(s, NackBegin(req, id, token, permanent, error));
    InvRun(s1, es);
    LimitStays(s1, es, id);
    assert RowOk(s.rows[id]) && RowOk(Run(s1, es).rows[id]);
  }

  lemma {:induction false} LimitStays(s: State, es: seq<Event>, id: JobId)
    requires id in s.rows
    ensures id in Run(s, es).rows && Run(s, es).rows[id].maxAttempts == s.rows[id].maxAttempts
    ensures Run(s, es).rows[id].queue == s.rows[id].queue
  {
    if es != [] {
      LimitStays(s, es[..|es| - 1], id);
      RowsStay(Run(s, es[..|es| - 1]), es[|es| - 1], id);
    }
  }

  /** The events of a queue whose nacks are single statements. */
  datatype AtomicEvent = Same(e: Event) | Nack(id: JobId, token: int, permanent: bool, error: string, delay: nat)

  datatype Table = Table(now: int, rows: Rows)

  function View(s: State): Table {
    Table(s.now, s.rows)
  }

  function AtomicStep(t: Table, e: AtomicEvent): Table {
    match e
    case Same(e) => View(Next(State(t.now, t.rows, map[]), e))
    case Nack(id, token, permanent, error, delay) =>
      t.(rows := AtomicNack(t.rows, t.now, id, token, permanent, error, delay).0)
  }

  function AtomicRun(t: Table, es: seq<AtomicEvent>): Table {
    if es == [] then t else AtomicStep(AtomicRun(t, es[..|es| - 1]), es[|es| - 1])
  }

  /** SELECTs disappear, UPDATEs become whole nacks, everything else is itself. */
  function AsAtomic(s: State, e: Event): seq<AtomicEvent> {
    match e
    case NackBegin(_, _, _, _, _) => []
    case NackFinish(req, delay) =>
      if req in s.inflight then
        var n := s.inflight[req];
        [Nack(n.id, n.token, n.permanent, n.error, delay)]
      else []
    case _ => [Same(e)]
  }

  function AtomicTrace(s: State, es: seq<Event>): seq<AtomicEvent> {
    if es == [] then []
    else AtomicTrace(s, es[..|es| - 1]) + AsAtomic(Run(s, es[..|es| - 1]), es[|es| - 1])
  }

  lemma AtomicAppend(t: Table, es: seq<AtomicEvent>, e: AtomicEvent)
    ensures AtomicRun(t, es + [e]) == AtomicStep(AtomicRun(t, es), e)
  {
  }

  lemma StepRefines(s: State, e: Event)
    requires Inv(s)
    ensures |AsAtomic(s, e)| <= 1
    ensures View(Next(s, e)) == if AsAtomic(s, e) == [] then View(s) else AtomicStep(View(s), AsAtomic(s, e)[0])
  {
  }

  /** Every run with split nacks leaves the table as the run with atomic nacks does. */
  lemma {:induction false} SplitNackRefinesAtomic(s: State, es: seq<Event>)
    requires Inv(s)
    ensures View(Run(s, es)) == AtomicRun(View(s), AtomicTrace(s, es))
  {
    if es != [] {
      var front, e := es[..|es| - 1], es[|es| - 1];
      var mid, trace := Run(s, front), AtomicTrace(s, front);
      SplitNackRefinesAtomic(s, front);
      InvRun(s, front);
      StepRefines(mid, e);
      if AsAtomic(mid, e) == [] {
        assert trace + [] == trace;
      } else {
        assert AsAtomic(mid, e) == [AsAtomic(mid, e)[0]];
        AtomicAppend(View(s), trace, AsAtomic(mid, e)[0]);
      }
    }
  }
}
