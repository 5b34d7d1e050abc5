/** The enqueuer's reads and writes interleaved with worker and scheduler steps.

    The per-job lock admits one enqueue per id at a time; everything else may happen between any two
    of its accesses to Redis. Each library or script call is one step. */
module MaintenanceRaces {
  import opened Common
  import opened MaintenanceEnvelope
  import opened MaintenanceQueue

  /** Where one enqueue stands. `raced` marks the second look after a failed store. */
  datatype Pc =
    | Fetching
    | ReadingStatus(envelope: Envelope)
    | ProbingIntermediate(envelope: Envelope)
    | ProbingQueue(envelope: Envelope)
    | ProbingScheduled(envelope: Envelope)
    | Judging(envelope: Envelope, active: Option<JobState>)
    | Quarantining(why: Repair)
    | Pushing(repaired: Option<Repair>)
    | Returned(result: Enqueued)
    | Raised(error: Conflict)

  datatype Call = Call(task: Task, runId: string, attempts: int, create: bool, raced: bool, pc: Pc)

  datatype World = World(db: Redis, calls: map<string, Call>)

  datatype Event =
    | Begin(id: string, task: Task, runId: string, attempts: int, create: bool)
    | Advance(id: string)
    | StoreFails(id: string, effect: bool)
    | Dequeue
    | PrepareExecution(id: string, execution: string)
    | StartJob(id: string)
    | RejectDequeued(id: string)
    | RejectPrepared(id: string)
    | SucceedJob(id: string)
    | FailJob(id: string)
    | StopJob(id: string)
    | RetryJob(id: string)
    | Promote(id: string)
    | SweepTerminal(ids: set<string>)

  predicate IsRead(pc: Pc) {
    pc.Fetching? || pc.ReadingStatus? || pc.ProbingIntermediate? || pc.ProbingQueue? || pc.ProbingScheduled?
  }

  predicate Finished(pc: Pc) { pc.Returned? || pc.Raised? }

  /** Nothing is left to do without a job: store one, report it missing, or give up a second look. */
  function NoJob(c: Call, repair: Option<Repair>): Call {
    if c.raced then c.(pc := Raised(QueueUnavailable))
    else if c.create then c.(pc := Pushing(repair))
    else c.(pc := Returned(Enqueued(false, IsMissing, repair)))
  }

  function WithCall(w: World, id: string, c: Call): World { w.(calls := w.calls[id := c]) }

  /** What a read finds decides the next read. */
  function AfterRead(r: Redis, id: string, c: Call): Call
    requires IsRead(c.pc)
  {
    match c.pc
    case Fetching => if id in r.jobs then c.(pc := ReadingStatus(ReadBack(r, id))) else NoJob(c, None)
    case ReadingStatus(e) => c.(pc :=
      match StatusOf(r, id)
      case None => Raised(JobStateInvalid)
      case Some(Unknown) => Raised(JobStateInvalid)
      case Some(Started) => Judging(e, Some(IsStarted))
      case Some(Queued) => ProbingIntermediate(e)
      case Some(Scheduled) => ProbingScheduled(e)
      case Some(_) => Judging(e, None))
    case ProbingIntermediate(e) =>
      c.(pc := if id in r.intermediate then Judging(e, Some(IsStarted)) else ProbingQueue(e))
    case ProbingQueue(e) => c.(pc := Judging(e, if id in r.queue then Some(IsQueued) else None))
    case ProbingScheduled(e) => c.(pc := Judging(e, if id in r.scheduled then Some(IsScheduled) else None))
  }

  function ReadAccess(w: World, id: string): World
    requires id in w.calls && IsRead(w.calls[id].pc)
  {
    WithCall(w, id, AfterRead(w.db, id, w.calls[id]))
  }

  function JudgeAccess(w: World, s: Settings, id: string): World
    requires id in w.calls && w.calls[id].pc.Judging?
  {
    var c := w.calls[id];
    var valid := Allowlisted(c.pc.envelope, s, Exact(c.task, c.runId, id, c.attempts));
    WithCall(w, id, c.(pc :=
      if valid && c.pc.active.Some? then Returned(Enqueued(true, c.pc.active.value, None))
      else if c.pc.active == Some(IsStarted) then Raised(PoisonedActive)
      else Quarantining(if valid then InactiveJob else EnvelopeMismatch)))
  }

  function QuarantineAccess(w: World, id: string): World
    requires id in w.calls && w.calls[id].pc.Quarantining?
  {
    var c := w.calls[id];
    var (db, verdict) := Quarantined(w.db, id);
    match verdict
    case IsActive => WithCall(w, id, c.(pc := Raised(PoisonedActive)))
    case HasExecutionMaterial => WithCall(w, id, c.(pc := Raised(PoisonedExecution)))
    case Removed(_) => WithCall(w.(db := db), id, NoJob(c, Some(c.pc.why)))
  }

  function PushAccess(w: World, s: Settings, id: string): World
    requires id in w.calls && w.calls[id].pc.Pushing?
  {
    var c := w.calls[id];
    WithCall(w.(db := Pushed(w.db, id, Written(s, c.task, c.runId, id, c.attempts))), id,
             c.(pc := Returned(Enqueued(false, IsQueued, c.pc.repaired))))
  }

  /** One access to Redis by the enqueue of `id`. */
  function Advanced(w: World, s: Settings, id: string): World
    requires id in w.calls && !Finished(w.calls[id].pc)
  {
    var pc := w.calls[id].pc;
    if pc.Judging? then JudgeAccess(w, s, id)
    else if pc.Quarantining? then QuarantineAccess(w, id)
    else if pc.Pushing? then PushAccess(w, s, id)
    else ReadAccess(w, id)
  }

  // ----- An enqueue by itself -----

  function StepsLeft(pc: Pc): nat {
    match pc
    case Fetching => 8
    case ReadingStatus(_) => 7
    case ProbingIntermediate(_) => 6
    case ProbingQueue(_) => 5
    case ProbingScheduled(_) => 5
    case Judging(_, _) => 4
    case Quarantining(_) => 3
    case Pushing(_) => 2
    case _ => 0
  }

  lemma AdvanceGetsOn(w: World, s: Settings, id: string)
    requires id in w.calls && !Finished(w.calls[id].pc)
    ensures id in Advanced(w, s, id).calls && StepsLeft(Advanced(w, s, id).calls[id].pc) < StepsLeft(w.calls[id].pc)
  {}

  /** The rest of an enqueue with nothing running beside it. */
  ghost function Alone(w: World, s: Settings, id: string): World
    requires id in w.calls
    decreases StepsLeft(w.calls[id].pc)
  {
    if Finished(w.calls[id].pc) then w else
      AdvanceGetsOn(w, s, id);
      Alone(Advanced(w, s, id), s, id)
  }

  /** The reads of an enqueue up to its judgement. */
  function ReadOn(r: Redis, id: string, c: Call): Call
    decreases StepsLeft(c.pc)
  {
    if IsRead(c.pc) then ReadOn(r, id, AfterRead(r, id, c)) else c
  }

  lemma {:induction false} AloneReads(w: World, s: Settings, id: string)
    requires id in w.calls
    ensures Alone(w, s, id) == Alone(WithCall(w, id, ReadOn(w.db, id, w.calls[id])), s, id)
    decreases StepsLeft(w.calls[id].pc)
  {
    var c := w.calls[id];
    if IsRead(c.pc) {
      var v := ReadAccess(w, id);
      AdvanceGetsOn(w, s, id);
      assert Advanced(w, s, id) == v;
      AloneReads(v, s, id);
      assert WithCall(v, id, ReadOn(v.db, id, v.calls[id])) == WithCall(w, id, ReadOn(w.db, id, c));
    } else {
      assert WithCall(w, id, c) == w;
    }
  }

  /** On a store that stays as it is, the probes find an active job exactly in its place. */
  lemma ProbesFind(r: Redis, id: string, c: Call)
    requires Inv(r) && c.pc.Fetching? && id in r.jobs
    ensures var pc := ReadOn(r, id, c).pc;
            if StatusOf(r, id) == None || StatusOf(r, id) == Some(Unknown) then pc == Raised(JobStateInvalid)
            else pc.Judging? && pc.envelope == ReadBack(r, id) && (pc.active.Some? <==> Active(r, id))
                 && forall state :: pc.active == Some(state) <==> ActiveAt(r, id, state)
    ensures ReadOn(r, id, c).(pc := c.pc) == c
  {
    assert InvFor(r, id);
    var e := ReadBack(r, id);
    var c1 := c.(pc := ReadingStatus(e));
    assert ReadOn(r, id, c) == ReadOn(r, id, c1);
    var c2 := AfterRead(r, id, c1);
    assert ReadOn(r, id, c1) == ReadOn(r, id, c2);
    if IsRead(c2.pc) {
      var c3 := AfterRead(r, id, c2);
      assert ReadOn(r, id, c2) == ReadOn(r, id, c3);
      if IsRead(c3.pc) {
        assert ReadOn(r, id, c3) == AfterRead(r, id, c3);
      }
    }
  }

  function Answer(pc: Pc): Result<Enqueued, Conflict>
    requires Finished(pc)
  {
    match pc case Returned(result) => Ok(result) case Raised(error) => Err(error)
  }

  /** From the judgement on. */
  lemma AloneJudges(w: World, s: Settings, id: string)
    requires Inv(w.db) && id in w.calls && w.calls[id].pc.Judging? && !w.calls[id].raced
    requires id in w.db.jobs && StatusOf(w.db, id) != None && StatusOf(w.db, id) != Some(Unknown)
    requires w.calls[id].pc.envelope == ReadBack(w.db, id) && (w.calls[id].pc.active.Some? <==> Active(w.db, id))
    requires forall state :: w.calls[id].pc.active == Some(state) <==> ActiveAt(w.db, id, state)
    ensures var c, v := w.calls[id], Alone(w, s, id);
            && id in v.calls && Finished(v.calls[id].pc)
            && (v.db, Answer(v.calls[id].pc)) == EnqueueOn(w.db, s, c.task, c.runId, id, c.attempts, c.create)
  {
    var v := JudgeAccess(w, s, id);
    PlaceIsOne(w.db, id);
    assert Alone(w, s, id) == Alone(v, s, id);
    if v.calls[id].pc.Quarantining? {
      QuarantineIsExact(w.db, id);
      var q := QuarantineAccess(v, id);
      assert Alone(v, s, id) == Alone(q, s, id);
      if q.calls[id].pc.Pushing? {
        assert Alone(q, s, id) == PushAccess(q, s, id);
      }
    }
  }

  /** With nothing beside it, the enqueue of the interleavings is the sequential one: same store, same answer. */
  lemma AloneIsSequential(w: World, s: Settings, id: string)
    requires Inv(w.db) && id in w.calls && w.calls[id].pc.Fetching? && !w.calls[id].raced
    ensures var c, v := w.calls[id], Alone(w, s, id);
            && id in v.calls && Finished(v.calls[id].pc)
            && (v.db, Answer(v.calls[id].pc)) == EnqueueOn(w.db, s, c.task, c.runId, id, c.attempts, c.create)
  {
    var c := w.calls[id];
    AloneReads(w, s, id);
    var v := WithCall(w, id, ReadOn(w.db, id, c));
    if id in w.db.jobs {
      ProbesFind(w.db, id, c);
      if v.calls[id].pc.Judging? {
        AloneJudges(v, s, id);
      }
    } else {
      assert ReadOn(w.db, id, c) == NoJob(c, None);
      if c.create {
        assert Alone(v, s, id) == PushAccess(v, s, id);
      }
    }
  }

  function SetStatus(r: Redis, id: string, status: Status): Redis
    requires id in r.jobs
  {
    r.(jobs := r.jobs[id := r.jobs[id].(status := Some(status))])
  }

  function EndExecution(r: Redis, id: string): Redis {
    r.(wip := DropWip(r.wip, id), executions := r.executions - {id})
  }

  function DropWip(wip: seq<string>, id: string): seq<string> {
    if wip == [] then [] else
      var rest := DropWip(wip[..|wip| - 1], id);
      if Belongs(wip[|wip| - 1], id) then rest else rest + [wip[|wip| - 1]]
  }

  /** `_reject_job`: failed for good, with the fields the failure handling relies on put right. */
  function Rejected(r: Redis, s: Settings, id: string): Redis
    requires id in r.jobs
  {
    var e := r.jobs[id].envelope.(origin := s.queueName, retriesLeft := Some(0), failureTtl := Some(FAILURE_TTL));
    r.(jobs := r.jobs[id := JobHash(Some(Failed), e)], intermediate := Without(r.intermediate, id),
       failed := r.failed + {id}, results := r.results + {id})
  }

  /** Ending an execution drops exactly the entries of this job, in place. */
  lemma {:induction false} DropWipExactly(wip: seq<string>, id: string)
    ensures forall e :: multiset(DropWip(wip, id))[e] == if Belongs(e, id) then 0 else multiset(wip)[e]
  {
    if wip != [] {
      DropWipExactly(wip[..|wip| - 1], id);
      assert wip == wip[..|wip| - 1] + [wip[|wip| - 1]];
    }
  }

  /** A job whose execution has ended has no trace of one, whatever else stays. */
  lemma EndedLeavesNoTrace(r: Redis, id: string)
    ensures var q := EndExecution(r, id);
            id !in q.executions && !HasWip(q, id) && q.executions + {id} == r.executions + {id}
            && q == r.(wip := q.wip, executions := q.executions)
  {
    DropWipExactly(r.wip, id);
    var q := EndExecution(r, id);
    forall i | 0 <= i < |q.wip|
      ensures !Belongs(q.wip[i], id)
    {
      assert q.wip[i] in multiset(q.wip);
    }
  }

  /** A rejected job is failed for good: in no active place, without a retry, listed as failed, and with a result
      that keeps its id from being enqueued again. */
  lemma RejectionIsFinal(r: Redis, s: Settings, id: string)
    requires id in r.jobs && (StatusOf(r, id) == Some(Started) || id in r.intermediate) && InvFor(r, id)
    ensures var q := Rejected(r, s, id);
            && StatusOf(q, id) == Some(Failed) && Places(q, id) == 0 && q.jobs[id].envelope.retriesLeft == Some(0)
            && id in q.failed && id in q.results && Busy(q, id)
            && forall other :: other != id ==> SameFor(r, q, other)
    ensures forall expected :: Blocked(Rejected(r, s, id), s, id, expected)
  {}

  predicate Enabled(w: World, s: Settings, e: Event) {
    match e
    case Begin(id, _, runId, attempts, _) =>
      && (id !in w.calls || Finished(w.calls[id].pc))
      && IsRunId(runId) && IsJobId(id) && 1 <= attempts <= s.maxAttempts
    case Advance(id) => id in w.calls && !Finished(w.calls[id].pc)
    case StoreFails(id, _) => id in w.calls && w.calls[id].pc.Pushing?
    case Dequeue => w.db.queue != []
    case PrepareExecution(id, execution) => id in w.db.intermediate && Belongs(execution, id)
    case StartJob(id) => id in w.db.intermediate && id in w.db.jobs && HasWip(w.db, id)
    case RejectDequeued(id) =>
      id in w.db.intermediate && id in w.db.jobs && !Allowlisted(ReadBack(w.db, id), s, Generic)
    case RejectPrepared(id) =>
      && id in w.db.jobs && (StatusOf(w.db, id) == Some(Started) || id in w.db.intermediate)
      && !Allowlisted(ReadBack(w.db, id), s, Generic)
    case SucceedJob(id) => StatusOf(w.db, id) == Some(Started)
    case FailJob(id) => StatusOf(w.db, id) == Some(Started)
    case StopJob(id) => StatusOf(w.db, id) == Some(Started)
    case RetryJob(id) =>
      && StatusOf(w.db, id) == Some(Started)
      && w.db.jobs[id].envelope.retriesLeft.Some? && w.db.jobs[id].envelope.retriesLeft.value > 0
    case Promote(id) => id in w.db.scheduled && id in w.db.jobs
    case SweepTerminal(_) => true
  }

  function Next(w: World, s: Settings, e: Event): World
    requires Enabled(w, s, e)
  {
    var r := w.db;
    match e
    case Begin(id, task, runId, attempts, create) => WithCall(w, id, Call(task, runId, attempts, create, false, Fetching))
    case Advance(id) => Advanced(w, s, id)
    case StoreFails(id, effect) =>
      var c := w.calls[id];
      WithCall(if effect then w.(db := Pushed(r, id, Written(s, c.task, c.runId, id, c.attempts))) else w,
               id, c.(raced := true, pc := Fetching))
    case Dequeue => w.(db := r.(queue := r.queue[1..], intermediate := r.intermediate + [r.queue[0]]))
    case PrepareExecution(id, execution) => w.(db := r.(wip := r.wip + [execution], executions := r.executions + {id}))
    case StartJob(id) => w.(db := SetStatus(r, id, Started).(intermediate := Without(r.intermediate, id)))
    case RejectDequeued(id) =>
      w.(db := Rejected(r, s, id))
    case RejectPrepared(id) =>
      w.(db := EndExecution(Rejected(r, s, id), id))
    case SucceedJob(id) =>
      w.(db := EndExecution(SetStatus(r, id, Status.Finished), id).(finished := r.finished + {id}, results := r.results + {id}))
    case FailJob(id) =>
      w.(db := EndExecution(SetStatus(r, id, Failed), id).(failed := r.failed + {id}, results := r.results + {id}))
    case StopJob(id) =>
      w.(db := EndExecution(SetStatus(r, id, Stopped), id).(failed := r.failed + {id}, results := r.results + {id}))
    case RetryJob(id) =>
      var retried := JobHash(Some(Scheduled), Retried(r.jobs[id].envelope));
      w.(db := EndExecution(r, id).(jobs := r.jobs[id := retried], scheduled := r.scheduled + {id}))
    case Promote(id) => w.(db := SetStatus(r, id, Queued).(scheduled := r.scheduled - {id}, queue := r.queue + [id]))
    case SweepTerminal(ids) => w.(db := r.(finished := r.finished - ids, failed := r.failed - ids))
  }

  /** An enqueue can begin with any valid arguments as soon as none is under way for its id. */
  lemma BeginIsOpen(w: World, s: Settings, id: string, task: Task, runId: string, attempts: int, create: bool)
    ensures Enabled(w, s, Begin(id, task, runId, attempts, create)) <==>
              && (id in w.calls ==> Finished(w.calls[id].pc))
              && IsRunId(runId) && IsJobId(id) && attempts > 0 && attempts < s.maxAttempts + 1
  {}

  // ----- The invariant over all interleavings -----

  function Wanted(c: Call, id: string): Expected { Exact(c.task, c.runId, id, c.attempts) }

  /** The job is still stored, and acceptable if what the call has fetched of it is. */
  ghost predicate Carried(w: World, s: Settings, id: string, c: Call, e: Envelope) {
    id in w.db.jobs && (Allowlisted(e, s, Wanted(c, id)) ==> Allowlisted(ReadBack(w.db, id), s, Wanted(c, id)))
  }

  ghost predicate PcInv(w: World, s: Settings, id: string, c: Call) {
    match c.pc
    case ReadingStatus(e) => Carried(w, s, id, c, e)
    case ProbingIntermediate(e) => Carried(w, s, id, c, e)
    case ProbingQueue(e) => Carried(w, s, id, c, e)
    case ProbingScheduled(e) => Carried(w, s, id, c, e)
    case Pushing(_) => id !in w.db.jobs
    case _ => true
  }

  /** An enqueue about to store its job has made sure that there is none; one that looks for the job's
      place can still rely on what it has fetched. */
  ghost predicate CallInv(w: World, s: Settings, id: string)
    requires id in w.calls
  {
    var c := w.calls[id];
    && IsRunId(c.runId) && IsJobId(id) && 1 <= c.attempts <= s.maxAttempts
    && PcInv(w, s, id, c)
  }

  ghost predicate WorldInv(w: World, s: Settings) {
    Inv(w.db) && forall id :: id in w.calls ==> CallInv(w, s, id)
  }

  /** Worker and scheduler steps move a job between places and create no job hash. */
  predicate IsWorkerStep(e: Event) {
    !e.Begin? && !e.Advance? && !e.StoreFails?
  }

  lemma PlacesAfterWorkerStep(w: World, s: Settings, e: Event, id: string)
    requires Inv(w.db) && Enabled(w, s, e) && IsWorkerStep(e)
    ensures InvFor(Next(w, s, e).db, id)
    ensures id in Next(w, s, e).db.jobs <==> id in w.db.jobs
  {
    assert InvFor(w.db, id);
    var q := Next(w, s, e).db;
    match e {
      case Dequeue =>
        var head := w.db.queue[0];
        assert w.db.queue == [head] + w.db.queue[1..];
        assert InvFor(w.db, head);
      case Promote(other) => assert q.queue == w.db.queue + [other];
      case _ =>
    }
  }

  /** A worker or scheduler step leaves the stored job as it was or uses up a retry, unless it rejects it. */
  lemma StoredAfterWorkerStep(w: World, s: Settings, e: Event, id: string)
    requires Enabled(w, s, e) && IsWorkerStep(e) && id in w.db.jobs
    ensures id in Next(w, s, e).db.jobs
    ensures ReadBack(Next(w, s, e).db, id) in {ReadBack(w.db, id), Retried(ReadBack(w.db, id))}
            || !Allowlisted(ReadBack(w.db, id), s, Generic)
  {}

  /** Worker and scheduler steps take nothing from an acceptable job: they do not reject it, and a
      retry leaves it acceptable. */
  lemma CarriedThroughWorkerStep(w: World, s: Settings, e: Event, id: string, c: Call, fetched: Envelope)
    requires Enabled(w, s, e) && IsWorkerStep(e) && 1 <= c.attempts <= s.maxAttempts && Carried(w, s, id, c, fetched)
    ensures Carried(Next(w, s, e), s, id, c, fetched)
  {
    StoredAfterWorkerStep(w, s, e, id);
    if Allowlisted(fetched, s, Wanted(c, id)) {
      ExactIsKept(ReadBack(w.db, id), s, c.task, c.runId, id, c.attempts);
    }
  }

  /** What one access by the enqueue of `id` may do. */
  ghost predicate GoodAccess(w: World, v: World, s: Settings, id: string) {
    && Inv(v.db) && OnlyFor(w.db, v.db, id)
    && v.calls.Keys == w.calls.Keys && id in v.calls && CallInv(v, s, id)
    && (forall other :: other in w.calls && other != id ==> v.calls[other] == w.calls[other])
    && (id in w.db.jobs && Busy(w.db, id) ==> v.db == w.db)
  }

  lemma QuarantineStep(w: World, s: Settings, id: string)
    requires WorldInv(w, s) && id in w.calls && w.calls[id].pc.Quarantining?
    ensures GoodAccess(w, QuarantineAccess(w, id), s, id)
  {
    assert CallInv(w, s, id);
    QuarantineIsExact(w.db, id);
    EraseKeepsInv(w.db, id);
  }

  lemma PushStep(w: World, s: Settings, id: string)
    requires WorldInv(w, s) && id in w.calls && w.calls[id].pc.Pushing?
    ensures GoodAccess(w, PushAccess(w, s, id), s, id)
  {
    var c := w.calls[id];
    assert CallInv(w, s, id);
    PushKeepsInv(w.db, s, id, c.task, c.runId, c.attempts);
  }

  lemma ReadStep(w: World, s: Settings, id: string)
    requires WorldInv(w, s) && id in w.calls && IsRead(w.calls[id].pc)
    ensures GoodAccess(w, ReadAccess(w, id), s, id)
  {
    var c := w.calls[id];
    assert CallInv(w, s, id);
    var after := AfterRead(w.db, id, c);
    assert after.(pc := c.pc) == c && PcInv(w, s, id, after);
  }

  lemma JudgeStep(w: World, s: Settings, id: string)
    requires WorldInv(w, s) && id in w.calls && w.calls[id].pc.Judging?
    ensures GoodAccess(w, JudgeAccess(w, s, id), s, id)
  {
    assert CallInv(w, s, id);
  }

  /** One access by an enqueue keeps the invariant, and changes nothing about other ids or about a job
      that is started, dequeued or has any trace of an execution. */
  lemma AdvanceKeepsInv(w: World, s: Settings, id: string)
    requires WorldInv(w, s) && id in w.calls && !Finished(w.calls[id].pc)
    ensures GoodAccess(w, Advanced(w, s, id), s, id)
  {
    match w.calls[id].pc {
      case Quarantining(_) => QuarantineStep(w, s, id);
      case Pushing(_) => PushStep(w, s, id);
      case Judging(_, _) => JudgeStep(w, s, id);
      case _ => ReadStep(w, s, id);
    }
  }

  lemma OthersKeepInv(w: World, v: World, s: Settings, id: string)
    requires WorldInv(w, s) && GoodAccess(w, v, s, id)
    ensures WorldInv(v, s)
  {
    forall other | other in v.calls
      ensures CallInv(v, s, other)
    {
      if other != id {
        assert CallInv(w, s, other) && SameFor(w.db, v.db, other);
      }
    }
  }

  lemma StoreFailsStep(w: World, s: Settings, id: string, effect: bool)
    requires WorldInv(w, s) && Enabled(w, s, StoreFails(id, effect))
    ensures GoodAccess(w, Next(w, s, StoreFails(id, effect)), s, id)
  {
    var c := w.calls[id];
    assert CallInv(w, s, id);
    PushKeepsInv(w.db, s, id, c.task, c.runId, c.attempts);
  }

  lemma WorkerStepKeepsInv(w: World, s: Settings, e: Event)
    requires WorldInv(w, s) && Enabled(w, s, e) && IsWorkerStep(e)
    ensures WorldInv(Next(w, s, e), s)
  {
    var v := Next(w, s, e);
    forall id
      ensures InvFor(v.db, id) && (id in v.calls ==> CallInv(v, s, id))
    {
      PlacesAfterWorkerStep(w, s, e, id);
      assert v.calls == w.calls;
      if id in v.calls {
        var c := w.calls[id];
        assert CallInv(w, s, id);
        if IsRead(c.pc) && !c.pc.Fetching? {
          CarriedThroughWorkerStep(w, s, e, id, c, c.pc.envelope);
        }
      }
    }
  }

  /** Every step of every interleaving keeps every id in at most one active place. */
  lemma StepKeepsInv(w: World, s: Settings, e: Event)
    requires WorldInv(w, s) && Enabled(w, s, e)
    ensures WorldInv(Next(w, s, e), s)
  {
    if e.Begin? {
      var v := Next(w, s, e);
      forall other | other in v.calls
        ensures CallInv(v, s, other)
      {
        assert other != e.id ==> CallInv(w, s, other);
      }
    } else if e.Advance? {
      AdvanceKeepsInv(w, s, e.id);
      OthersKeepInv(w, Next(w, s, e), s, e.id);
    } else if e.StoreFails? {
      StoreFailsStep(w, s, e.id, e.effect);
      OthersKeepInv(w, Next(w, s, e), s, e.id);
    } else {
      WorkerStepKeepsInv(w, s, e);
    }
  }

  // ----- Whole runs -----

  ghost predicate IsRun(states: seq<World>, events: seq<Event>, s: Settings) {
    && |states| == |events| + 1
    && forall i :: 0 <= i < |events| ==> Enabled(states[i], s, events[i]) && states[i + 1] == Next(states[i], s, events[i])
  }

  lemma {:induction false} RunKeepsInv(states: seq<World>, events: seq<Event>, s: Settings, i: nat)
    requires IsRun(states, events, s) && WorldInv(states[0], s) && i < |states|
    ensures WorldInv(states[i], s)
  {
    if i > 0 {
      RunKeepsInv(states, events, s, i - 1);
      StepKeepsInv(states[i - 1], s, events[i - 1]);
    }
  }

  /** Starting without enqueues from a store in which nothing listed lacks its job, a job id is in at
      most one active place after any interleaving. */
  lemma AtMostOnePlace(states: seq<World>, events: seq<Event>, s: Settings, i: nat, id: string)
    requires IsRun(states, events, s) && states[0].calls == map[] && Inv(states[0].db) && i < |states|
    ensures Places(states[i].db, id) <= 1
  {
    RunKeepsInv(states, events, s, i);
    assert InvFor(states[i].db, id);
  }

  /** Over any interleaving, an enqueue's own steps never change the store while its job is started,
      dequeued or executing. */
  lemma BusyJobsAreLeftAlone(states: seq<World>, events: seq<Event>, s: Settings, i: nat, id: string)
    requires IsRun(states, events, s) && WorldInv(states[0], s) && i < |events|
    requires events[i] == Advance(id) && id in states[i].db.jobs && Busy(states[i].db, id)
    ensures states[i + 1].db == states[i].db
  {
    RunKeepsInv(states, events, s, i);
    AdvanceKeepsInv(states[i], s, id);
  }

  // ----- What a returned result was based on -----

  ghost predicate OnePlaceAt(w: World, id: string, state: JobState) {
    id in w.db.jobs && Places(w.db, id) == 1 && At(w.db, id, state)
  }

  /** The job is in exactly this place, and acceptable to the call. */
  ghost predicate ActiveFor(w: World, s: Settings, id: string, c: Call, state: JobState) {
    OnePlaceAt(w, id, state) && Allowlisted(ReadBack(w.db, id), s, Wanted(c, id))
  }

  /** No enqueue of `id` has begun since state `j`. */
  ghost predicate SameCall(events: seq<Event>, j: nat, i: nat, id: string)
    requires i <= |events|
  {
    forall k :: j <= k < i ==> !(events[k].Begin? && events[k].id == id)
  }

  /** At some moment of this very call the job was in exactly this place, and acceptable if what the
      call had fetched was. */
  ghost predicate Seen(states: seq<World>, events: seq<Event>, s: Settings, i: nat, id: string, e: Envelope, state: JobState)
    requires i < |states| && i <= |events| && id in states[i].calls
  {
    var c := states[i].calls[id];
    exists j :: 0 <= j <= i && SameCall(events, j, i, id) && OnePlaceAt(states[j], id, state) && Carried(states[j], s, id, c, e)
  }

  ghost predicate WasActive(states: seq<World>, events: seq<Event>, s: Settings, i: nat, id: string, state: JobState)
    requires i < |states| && i <= |events| && id in states[i].calls
  {
    exists j :: 0 <= j <= i && SameCall(events, j, i, id) && ActiveFor(states[j], s, id, states[i].calls[id], state)
  }

  /** What the pc of an enqueue has been witnessed by. */
  ghost predicate Witnessed(states: seq<World>, events: seq<Event>, s: Settings, i: nat, id: string)
    requires i < |states| && i <= |events| && id in states[i].calls
  {
    match states[i].calls[id].pc
    case Judging(e, active) => active.Some? ==> Seen(states, events, s, i, id, e, active.value)
    case Returned(result) => result.state != IsMissing ==> WasActive(states, events, s, i, id, result.state)
    case _ => true
  }

  /** A job found by a probe is in exactly one place at that moment. */
  lemma ProbeSees(w: World, id: string, state: JobState)
    requires Inv(w.db) && At(w.db, id, state) && state != IsMissing
    ensures OnePlaceAt(w, id, state)
  {
    assert InvFor(w.db, id);
  }

  /** Facts about this call's past stay facts until the next call begins. */
  lemma WitnessesStay(states: seq<World>, events: seq<Event>, s: Settings, i: nat, id: string)
    requires i + 1 < |states| && i < |events| && id in states[i].calls && id in states[i + 1].calls
    requires states[i + 1].calls[id] == states[i].calls[id] && Witnessed(states, events, s, i, id)
    requires !(events[i].Begin? && events[i].id == id)
    ensures Witnessed(states, events, s, i + 1, id)
  {
    var c := states[i].calls[id];
    match c.pc {
      case Judging(e, active) =>
        if active.Some? {
          var j :| 0 <= j <= i && SameCall(events, j, i, id) && OnePlaceAt(states[j], id, active.value)
                   && Carried(states[j], s, id, c, e);
          assert SameCall(events, j, i + 1, id);
        }
      case Returned(result) =>
        if result.state != IsMissing {
          var j :| 0 <= j <= i && SameCall(events, j, i, id) && ActiveFor(states[j], s, id, c, result.state);
          assert SameCall(events, j, i + 1, id);
        }
      case _ =>
    }
  }

  /** An access that only reads: what it finds is witnessed by the state it reads. */
  lemma ReadIsWitnessed(states: seq<World>, events: seq<Event>, s: Settings, i: nat, id: string)
    requires i + 1 < |states| && i < |events| && events[i] == Advance(id)
    requires WorldInv(states[i], s) && id in states[i].calls && IsRead(states[i].calls[id].pc)
    requires states[i + 1] == ReadAccess(states[i], id)
    ensures Witnessed(states, events, s, i + 1, id)
  {
    var c := states[i].calls[id];
    var after := states[i + 1].calls[id].pc;
    assert CallInv(states[i], s, id);
    if after.Judging? && after.active.Some? {
      ProbeSees(states[i], id, after.active.value);
      assert SameCall(events, i, i + 1, id) && Carried(states[i], s, id, states[i + 1].calls[id], after.envelope);
    }
  }

  lemma JudgementIsWitnessed(states: seq<World>, events: seq<Event>, s: Settings, i: nat, id: string)
    requires i + 1 < |states| && i < |events| && events[i] == Advance(id)
    requires id in states[i].calls && states[i].calls[id].pc.Judging? && Witnessed(states, events, s, i, id)
    requires states[i + 1] == JudgeAccess(states[i], s, id)
    ensures Witnessed(states, events, s, i + 1, id)
  {
    var c := states[i].calls[id];
    if states[i + 1].calls[id].pc.Returned? {
      var active := c.pc.active.value;
      var j :| 0 <= j <= i && SameCall(events, j, i, id) && OnePlaceAt(states[j], id, active)
               && Carried(states[j], s, id, c, c.pc.envelope);
      assert SameCall(events, j, i + 1, id) && ActiveFor(states[j], s, id, states[i + 1].calls[id], active);
    }
  }

  lemma StoreIsWitnessed(states: seq<World>, events: seq<Event>, s: Settings, i: nat, id: string)
    requires i + 1 < |states| && i < |events|
    requires WorldInv(states[i], s) && id in states[i].calls && states[i].calls[id].pc.Pushing?
    requires states[i + 1] == PushAccess(states[i], s, id)
    ensures Witnessed(states, events, s, i + 1, id)
  {
    var c := states[i].calls[id];
    assert CallInv(states[i], s, id);
    PushKeepsInv(states[i].db, s, id, c.task, c.runId, c.attempts);
    assert SameCall(events, i + 1, i + 1, id) && ActiveFor(states[i + 1], s, id, states[i + 1].calls[id], IsQueued);
  }

  lemma AdvanceIsWitnessed(states: seq<World>, events: seq<Event>, s: Settings, i: nat, id: string)
    requires i + 1 < |states| && i < |events| && events[i] == Advance(id)
    requires WorldInv(states[i], s) && Enabled(states[i], s, events[i]) && states[i + 1] == Next(states[i], s, events[i])
    requires Witnessed(states, events, s, i, id)
    ensures id in states[i + 1].calls && Witnessed(states, events, s, i + 1, id)
  {
    var pc := states[i].calls[id].pc;
    if pc.Judging? {
      JudgementIsWitnessed(states, events, s, i, id);
    } else if pc.Pushing? {
      StoreIsWitnessed(states, events, s, i, id);
    } else if IsRead(pc) {
      ReadIsWitnessed(states, events, s, i, id);
    }
  }

  lemma {:induction false} AllWitnessed(states: seq<World>, events: seq<Event>, s: Settings, i: nat, id: string)
    requires IsRun(states, events, s) && WorldInv(states[0], s) && states[0].calls == map[]
    requires i < |states| && id in states[i].calls
    ensures Witnessed(states, events, s, i, id)
  {
    if i > 0 {
      var k := i - 1;
      var w, e := states[k], events[k];
      RunKeepsInv(states, events, s, k);
      if id in w.calls {
        AllWitnessed(states, events, s, k, id);
      }
      if e == Advance(id) {
        AdvanceIsWitnessed(states, events, s, k, id);
      } else if (e.Begin? || e.StoreFails?) && e.id == id {
      } else {
        if e.Advance? {
          AdvanceKeepsInv(w, s, e.id);
        }
        WitnessesStay(states, events, s, k, id);
      }
    }
  }

  /** Every call has begun with its own arguments, and none has begun for its id since. */
  lemma {:induction false} CallBegan(states: seq<World>, events: seq<Event>, s: Settings, i: nat, id: string)
      returns (b: nat)
    requires IsRun(states, events, s) && states[0].calls == map[] && i < |states| && id in states[i].calls
    ensures var c := states[i].calls[id];
            b < i && events[b] == Begin(id, c.task, c.runId, c.attempts, c.create) && SameCall(events, b + 1, i, id)
  {
    var k := i - 1;
    if events[k].Begin? && events[k].id == id {
      b := k;
    } else {
      CallsGoOn(states[k], s, events[k], id);
      b := CallBegan(states, events, s, k, id);
    }
  }

  lemma CallsGoOn(w: World, s: Settings, e: Event, id: string)
    requires Enabled(w, s, e) && id in Next(w, s, e).calls && !(e.Begin? && e.id == id)
    ensures id in w.calls
    ensures var c, d := w.calls[id], Next(w, s, e).calls[id];
            d.task == c.task && d.runId == c.runId && d.attempts == c.attempts && d.create == c.create
  {}

  /** Over any interleaving, when an enqueue has returned a job there was one moment between the beginning
      of this very call and its return at which the job was in exactly the reported place and no other,
      and acceptable for the call's arguments. */
  lemma ReturnedJobsWereActive(states: seq<World>, events: seq<Event>, s: Settings, i: nat, id: string)
    requires IsRun(states, events, s) && states[0].calls == map[] && Inv(states[0].db) && i < |states|
    requires id in states[i].calls && states[i].calls[id].pc.Returned?
    requires states[i].calls[id].pc.result.state != IsMissing
    ensures var c := states[i].calls[id];
            exists b: nat, j: nat ::
              && b < j <= i && events[b] == Begin(id, c.task, c.runId, c.attempts, c.create)
              && SameCall(events, b + 1, i, id)
              && OnePlaceAt(states[j], id, c.pc.result.state)
              && Allowlisted(ReadBack(states[j].db, id), s, Exact(c.task, c.runId, id, c.attempts))
  {
    AllWitnessed(states, events, s, i, id);
    var c := states[i].calls[id];
    var j :| 0 <= j <= i && SameCall(events, j, i, id) && ActiveFor(states[j], s, id, c, c.pc.result.state);
    var b := CallBegan(states, events, s, i, id);
    assert b < j <= i && OnePlaceAt(states[j], id, c.pc.result.state);
  }
}
