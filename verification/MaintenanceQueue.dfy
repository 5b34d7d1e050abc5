/** The maintenance queue in Redis: idempotent enqueue under a per-job lock, the atomic quarantine
    script, and the worker's steps on the same keys. */
module MaintenanceQueue {
  import opened Common
  import opened MaintenanceEnvelope

  datatype Status = Queued | Started | Finished | Failed | Scheduled | Deferred | Canceled | Stopped | Unknown

  datatype JobHash = JobHash(status: Option<Status>, envelope: Envelope)

  /** The keys of one queue. `wip` holds entries `job:execution`; the key sets hold the ids whose key
      exists. */
  datatype Redis = Redis(
    jobs: map<string, JobHash>, dependencyKeys: set<string>, dependentKeys: set<string>,
    queue: seq<string>, intermediate: seq<string>,
    scheduled: set<string>, deferred: set<string>, finished: set<string>, failed: set<string>, canceled: set<string>,
    wip: seq<string>, executions: set<string>, results: set<string>)

  const MAX_WIP: nat := 10_000

  datatype Verdict = IsActive | HasExecutionMaterial | Removed(status: Option<Status>)

  function Without(s: seq<string>, id: string): (r: seq<string>)
    ensures id !in r
    ensures forall x :: x != id ==> multiset(r)[x] == multiset(s)[x]
    ensures forall x :: x in r ==> x in s
  {
    if s == [] then [] else
      var rest := Without(s[..|s| - 1], id);
      assert s == s[..|s| - 1] + [s[|s| - 1]];
      if s[|s| - 1] == id then rest else rest + [s[|s| - 1]]
  }

  /** The script's test on a wip entry: it starts with the id and a colon. */
  predicate Belongs(entry: string, id: string) {
    |entry| > |id| && entry[..|id|] == id && entry[|id|] == ':'
  }

  /** An entry belongs to exactly the id in front of its colon-separated rest. */
  lemma BelongsExactly(entry: string, id: string)
    ensures Belongs(entry, id) <==> exists execution :: entry == id + ":" + execution
  {
    if Belongs(entry, id) {
      assert entry == id + ":" + entry[|id| + 1..];
    }
    if execution :| entry == id + ":" + execution {
      assert entry[..|id|] == id;
    }
  }

  predicate HasWip(r: Redis, id: string) {
    exists i :: 0 <= i < |r.wip| && Belongs(r.wip[i], id)
  }

  function StatusOf(r: Redis, id: string): Option<Status> {
    if id in r.jobs then r.jobs[id].status else None
  }

  /** Being started, between dequeue and start, or with any trace of an execution. */
  predicate Busy(r: Redis, id: string) {
    StatusOf(r, id) == Some(Started) || id in r.intermediate || id in r.executions || id in r.results || HasWip(r, id)
  }

  function Erased(r: Redis, id: string): Redis {
    r.(jobs := r.jobs - {id}, dependencyKeys := r.dependencyKeys - {id}, dependentKeys := r.dependentKeys - {id},
       queue := Without(r.queue, id), intermediate := Without(r.intermediate, id),
       scheduled := r.scheduled - {id}, deferred := r.deferred - {id}, finished := r.finished - {id},
       failed := r.failed - {id}, canceled := r.canceled - {id})
  }

  function Quarantined(r: Redis, id: string): (Redis, Verdict) {
    if StatusOf(r, id) == Some(Started) || id in r.intermediate then (r, IsActive)
    else if id in r.executions || id in r.results || |r.wip| > MAX_WIP || HasWip(r, id) then (r, HasExecutionMaterial)
    else (Erased(r, id), Removed(StatusOf(r, id)))
  }

  /** No key or list mentions the id. */
  ghost predicate NoTrace(r: Redis, id: string) {
    && id !in r.jobs && id !in r.dependencyKeys && id !in r.dependentKeys
    && id !in r.queue && id !in r.intermediate
    && id !in r.scheduled && id !in r.deferred && id !in r.finished && id !in r.failed && id !in r.canceled
    && id !in r.executions && id !in r.results && !HasWip(r, id)
  }

  /** Everything about one other id is as before, and the lists keep their order. */
  ghost predicate SameFor(r: Redis, q: Redis, id: string) {
    && (id in r.jobs <==> id in q.jobs) && (id in r.jobs ==> r.jobs[id] == q.jobs[id])
    && (id in r.dependencyKeys <==> id in q.dependencyKeys) && (id in r.dependentKeys <==> id in q.dependentKeys)
    && multiset(r.queue)[id] == multiset(q.queue)[id] && multiset(r.intermediate)[id] == multiset(q.intermediate)[id]
    && (id in r.scheduled <==> id in q.scheduled) && (id in r.deferred <==> id in q.deferred)
    && (id in r.finished <==> id in q.finished) && (id in r.failed <==> id in q.failed)
    && (id in r.canceled <==> id in q.canceled)
    && (id in r.executions <==> id in q.executions) && (id in r.results <==> id in q.results)
    && r.wip == q.wip
  }

  ghost predicate OnlyFor(r: Redis, q: Redis, id: string) {
    && (forall other :: other != id ==> SameFor(r, q, other))
    && Without(r.queue, id) == Without(q.queue, id) && Without(r.intermediate, id) == Without(q.intermediate, id)
  }

  lemma OnlyForTransitive(r: Redis, q: Redis, p: Redis, id: string)
    requires OnlyFor(r, q, id) && OnlyFor(q, p, id)
    ensures OnlyFor(r, p, id)
  {
    forall other | other != id
      ensures SameFor(r, p, other)
    {
      assert SameFor(r, q, other) && SameFor(q, p, other);
    }
  }

  lemma {:induction false} WithoutTwice(s: seq<string>, id: string)
    ensures Without(Without(s, id), id) == Without(s, id)
  {
    if s != [] {
      var init := s[..|s| - 1];
      WithoutTwice(init, id);
      if s[|s| - 1] != id {
        var r := Without(init, id);
        assert (r + [s[|s| - 1]])[..|r|] == r;
      }
    }
  }

  /** The script removes a job exactly when it is not busy (and the wip set is small enough to check);
      then it erases every trace of that id and nothing of any other, and otherwise it changes
      nothing. */
  lemma QuarantineIsExact(r: Redis, id: string)
    ensures var (q, verdict) := Quarantined(r, id);
            && (verdict.Removed? <==> !Busy(r, id) && |r.wip| <= MAX_WIP)
            && (verdict.Removed? ==> NoTrace(q, id) && OnlyFor(r, q, id))
            && (!verdict.Removed? ==> q == r)
  {
    WithoutTwice(r.queue, id);
    WithoutTwice(r.intermediate, id);
    assert NoTrace(Erased(r, id), id) <==> id !in r.executions && id !in r.results && !HasWip(r, id) by {
      assert HasWip(Erased(r, id), id) <==> HasWip(r, id);
    }
  }

  // ----- Active places -----

  /** In how many places a worker or the scheduler could pick the job up or is running it. */
  ghost function Places(r: Redis, id: string): nat {
    multiset(r.queue)[id] + multiset(r.intermediate)[id]
    + (if StatusOf(r, id) == Some(Started) then 1 else 0) + (if id in r.scheduled then 1 else 0)
  }

  ghost predicate InvFor(r: Redis, id: string) {
    && Places(r, id) <= 1
    && (id in r.queue || id in r.intermediate || id in r.scheduled || id in r.dependencyKeys || id in r.dependentKeys
        ==> id in r.jobs)
  }

  /** Every id is in at most one active place, and nothing listed lacks its job hash. */
  ghost predicate Inv(r: Redis) {
    forall id :: InvFor(r, id)
  }

  /** The stored job as the library reads it back, with the size of its dependency sets. */
  function ReadBack(r: Redis, id: string): Envelope
    requires id in r.jobs
  {
    r.jobs[id].envelope.(id := id,
                         dependencies := if id in r.dependencyKeys then {id} else {},
                         dependents := if id in r.dependentKeys then {id} else {})
  }

  datatype JobState = IsQueued | IsStarted | IsScheduled | IsMissing

  datatype Repair = EnvelopeMismatch | InactiveJob

  datatype Enqueued = Enqueued(existing: bool, state: JobState, repair: Option<Repair>)

  datatype Conflict =
    | IdentityInvalid
    | RetryPolicyUnsupported
    | JobStateInvalid
    | PoisonedActive
    | PoisonedExecution
    | QueueUnavailable

  /** Where the job is, when it is active, by the reads `_active_job_state` makes. */
  function ActiveState(r: Redis, id: string, status: Status): Option<JobState> {
    match status
    case Started => Some(IsStarted)
    case Queued =>
      if id in r.intermediate then Some(IsStarted) else if id in r.queue then Some(IsQueued) else None
    case Scheduled => if id in r.scheduled then Some(IsScheduled) else None
    case _ => None
  }

  /** Where a stored job is active, told by the store alone. */
  predicate ActiveAt(r: Redis, id: string, state: JobState) {
    match state
    case IsStarted => StatusOf(r, id) == Some(Started) || (StatusOf(r, id) == Some(Queued) && id in r.intermediate)
    case IsQueued => StatusOf(r, id) == Some(Queued) && id in r.queue
    case IsScheduled => StatusOf(r, id) == Some(Scheduled) && id in r.scheduled
    case IsMissing => false
  }

  predicate Active(r: Redis, id: string) {
    ActiveAt(r, id, IsStarted) || ActiveAt(r, id, IsQueued) || ActiveAt(r, id, IsScheduled)
  }

  /** The reads find an active job exactly in its place. */
  lemma ActiveIsFound(r: Redis, id: string, state: JobState)
    requires Inv(r) && StatusOf(r, id).Some?
    ensures ActiveState(r, id, StatusOf(r, id).value) == Some(state) <==> ActiveAt(r, id, state)
    ensures ActiveState(r, id, StatusOf(r, id).value).Some? <==> Active(r, id)
  {
    assert InvFor(r, id);
  }

  /** A job is active in one place only. */
  lemma PlaceIsOne(r: Redis, id: string)
    requires Inv(r)
    ensures forall a, b :: ActiveAt(r, id, a) && ActiveAt(r, id, b) ==> a == b
  {
    assert InvFor(r, id);
  }

  /** The stored job is acceptable and active. */
  predicate Reusable(r: Redis, s: Settings, id: string, expected: Expected) {
    id in r.jobs && Allowlisted(ReadBack(r, id), s, expected) && Active(r, id)
  }

  /** The stored job can be neither reused nor removed. */
  predicate Blocked(r: Redis, s: Settings, id: string, expected: Expected) {
    && id in r.jobs
    && (|| StatusOf(r, id) == None || StatusOf(r, id) == Some(Unknown)
        || (!Reusable(r, s, id, expected) && (Busy(r, id) || |r.wip| > MAX_WIP)))
  }

  /** How a job that can be neither reused nor removed is reported. */
  function BlockedBy(r: Redis, id: string): Conflict {
    if StatusOf(r, id) == None || StatusOf(r, id) == Some(Unknown) then JobStateInvalid
    else if StatusOf(r, id) == Some(Started) || id in r.intermediate then PoisonedActive
    else PoisonedExecution
  }

  /** What an enqueue with valid arguments does to the store, and what it answers, when nothing fails and
      nothing else runs. */
  function EnqueueOn(r: Redis, s: Settings, task: Task, runId: string, id: string, attempts: int, create: bool)
    : (Redis, Result<Enqueued, Conflict>)
  {
    var expected := Exact(task, runId, id, attempts);
    if Reusable(r, s, id, expected) then
      (r, Ok(Enqueued(true, if ActiveAt(r, id, IsStarted) then IsStarted else if ActiveAt(r, id, IsQueued) then IsQueued else IsScheduled, None)))
    else if Blocked(r, s, id, expected) then (r, Err(BlockedBy(r, id)))
    else
      var repair := if id !in r.jobs then None
                    else Some(if Allowlisted(ReadBack(r, id), s, expected) then InactiveJob else EnvelopeMismatch);
      var cleared := if id in r.jobs then Erased(r, id) else r;
      if create then (Pushed(cleared, id, Written(s, task, runId, id, attempts)), Ok(Enqueued(false, IsQueued, repair)))
      else (cleared, Ok(Enqueued(false, IsMissing, repair)))
  }

  ghost predicate At(r: Redis, id: string, state: JobState) {
    match state
    case IsQueued => id in r.queue
    case IsStarted => StatusOf(r, id) == Some(Started) || id in r.intermediate
    case IsScheduled => id in r.scheduled
    case IsMissing => id !in r.jobs
  }

  /** A job found active is in exactly one place, the one reported. */
  lemma ActiveMeansOnePlace(r: Redis, id: string)
    requires Inv(r) && StatusOf(r, id).Some?
    ensures var state := ActiveState(r, id, StatusOf(r, id).value);
            state.Some? ==> Places(r, id) == 1 && At(r, id, state.value)
  {
    assert InvFor(r, id);
  }

  /** The library's atomic enqueue. */
  function Pushed(r: Redis, id: string, e: Envelope): Redis {
    r.(jobs := r.jobs[id := JobHash(Some(Queued), e)], queue := r.queue + [id])
  }

  /** Pushing an id without a job hash keeps the invariant, puts the job in the queue and nowhere else,
      and leaves it acceptable. */
  lemma PushKeepsInv(r: Redis, s: Settings, id: string, task: Task, runId: string, attempts: int)
    requires Inv(r) && id !in r.jobs
    requires IsRunId(runId) && IsJobId(id) && 1 <= attempts <= s.maxAttempts
    ensures var q := Pushed(r, id, Written(s, task, runId, id, attempts));
            && Inv(q) && Places(q, id) == 1 && id in q.queue && OnlyFor(r, q, id)
            && Allowlisted(ReadBack(q, id), s, Exact(task, runId, id, attempts))
  {
    var e := Written(s, task, runId, id, attempts);
    var q := Pushed(r, id, e);
    assert InvFor(r, id);
    WrittenIsAccepted(s, task, runId, id, attempts, 0);
    assert ReadBack(q, id) == e;
    assert q.queue[..|r.queue|] == r.queue;
    forall other
      ensures InvFor(q, other) && (other != id ==> SameFor(r, q, other))
    {
      assert InvFor(r, other);
    }
  }

  lemma EraseKeepsInv(r: Redis, id: string)
    requires Inv(r)
    ensures Inv(Erased(r, id))
  {
    forall other
      ensures InvFor(Erased(r, id), other)
    {
      assert InvFor(r, other);
    }
  }

  /** A dependency key left behind without its job makes the next job of that id unacceptable, and
      nothing else can. */
  lemma StaleLinksPoison(r: Redis, s: Settings, id: string, task: Task, runId: string, attempts: int)
    requires IsRunId(runId) && IsJobId(id) && 1 <= attempts <= s.maxAttempts
    ensures Allowlisted(ReadBack(Pushed(r, id, Written(s, task, runId, id, attempts)), id), s, Exact(task, runId, id, attempts))
            <==> id !in r.dependencyKeys && id !in r.dependentKeys
  {
    var q := Pushed(r, id, Written(s, task, runId, id, attempts));
    WrittenIsAccepted(s, task, runId, id, attempts, 0);
    if id !in r.dependencyKeys && id !in r.dependentKeys {
      assert ReadBack(q, id) == Written(s, task, runId, id, attempts);
    } else {
      assert id in ReadBack(q, id).dependencies || id in ReadBack(q, id).dependents;
    }
  }

  // ----- The adapter, with nothing else running between its reads and writes -----

  class Server {
    const settings: Settings
    /** The library's calls do not fail. */
    const quiet: bool
    var db: Redis
    /** How many of the library's store calls have reported failure. */
    ghost var storeFailures: nat

    constructor (settings: Settings, db: Redis, quiet: bool)
      ensures this.settings == settings && this.db == db && this.quiet == quiet
    {
      this.quiet := quiet;
      this.settings := settings;
      this.db := db;
      storeFailures := 0;
    }

    /** The quarantine script. */
    method QuarantineScript(id: string) returns (v: Verdict)
      modifies `db
      ensures (db, v) == Quarantined(old(db), id)
    {
      var status := StatusOf(db, id);
      if status == Some(Started) {
        return IsActive;
      }
      if id in db.intermediate {
        return IsActive;
      }
      if id in db.executions || id in db.results {
        return HasExecutionMaterial;
      }
      if |db.wip| > MAX_WIP {
        return HasExecutionMaterial;
      }
      for i := 0 to |db.wip|
        invariant forall k :: 0 <= k < i ==> !Belongs(db.wip[k], id)
      {
        if Belongs(db.wip[i], id) {
          return HasExecutionMaterial;
        }
      }
      db := db.(queue := Without(db.queue, id));
      db := db.(intermediate := Without(db.intermediate, id));
      db := db.(scheduled := db.scheduled - {id}, deferred := db.deferred - {id}, finished := db.finished - {id},
                failed := db.failed - {id}, canceled := db.canceled - {id});
      db := db.(jobs := db.jobs - {id}, dependencyKeys := db.dependencyKeys - {id}, dependentKeys := db.dependentKeys - {id});
      v := Removed(status);
    }

    /** `_existing_job`: an acceptable active job, or none after quarantining what was there. */
    method ExistingJob(task: Task, runId: string, id: string, attempts: int)
      returns (r: Result<Option<JobState>, Conflict>, repair: Option<Repair>)
      requires Inv(db)
      modifies `db
      ensures Inv(db) && OnlyFor(old(db), db, id)
      ensures r.Err? || (r.Ok? && r.value.Some?) ==> db == old(db)
      ensures r.Ok? && r.value.Some? ==>
                && id in db.jobs && Places(db, id) == 1 && At(db, id, r.value.value) && ActiveAt(db, id, r.value.value)
                && Allowlisted(ReadBack(db, id), settings, Exact(task, runId, id, attempts))
      ensures r == Ok(None) ==> id !in db.jobs && (repair.Some? <==> id in old(db).jobs)
      ensures r == Ok(None) && repair.Some? ==> NoTrace(db, id) && !Busy(old(db), id)
      ensures r.Err? <==> Blocked(old(db), settings, id, Exact(task, runId, id, attempts))
      ensures r.Err? ==> r.error == BlockedBy(old(db), id)
      ensures r == Ok(None) ==>
                if id in old(db).jobs
                then db == Erased(old(db), id) && repair == Some(if Allowlisted(ReadBack(old(db), id), settings, Exact(task, runId, id, attempts))
                                                                 then InactiveJob else EnvelopeMismatch)
                else db == old(db)
      ensures r.Ok? && r.value.Some? <==> Reusable(old(db), settings, id, Exact(task, runId, id, attempts))
    {
      repair := None;
      if id !in db.jobs {
        return Ok(None), None;
      }
      var raw := StatusOf(db, id);
      if raw == None || raw == Some(Unknown) {
        return Err(JobStateInvalid), None;
      }
      var active := ActiveState(db, id, raw.value);
      ActiveMeansOnePlace(db, id);
      ActiveIsFound(db, id, if active.Some? then active.value else IsMissing);
      var valid := Allowlisted(ReadBack(db, id), settings, Exact(task, runId, id, attempts));
      if valid && active.Some? {
        return Ok(active), None;
      }
      if active == Some(IsStarted) {
        return Err(PoisonedActive), None;
      }
      repair := Some(if valid then InactiveJob else EnvelopeMismatch);
      QuarantineIsExact(db, id);
      EraseKeepsInv(db, id);
      var verdict := QuarantineScript(id);
      match verdict {
        case IsActive => return Err(PoisonedActive), None;
        case HasExecutionMaterial => return Err(PoisonedExecution), None;
        case Removed(_) => r := Ok(None);
      }
    }

    /** The library's enqueue, which may fail with or without having stored the job. */
    method Push(task: Task, runId: string, id: string, attempts: int) returns (ok: bool)
      requires Inv(db) && id !in db.jobs
      requires IsRunId(runId) && IsJobId(id) && 1 <= attempts <= settings.maxAttempts
      modifies this
      ensures Inv(db) && OnlyFor(old(db), db, id)
      ensures db == old(db) || db == Pushed(old(db), id, Written(settings, task, runId, id, attempts))
      ensures ok ==> db == Pushed(old(db), id, Written(settings, task, runId, id, attempts))
      ensures quiet ==> ok
      ensures storeFailures == if ok then old(storeFailures) else old(storeFailures) + 1
    {
      PushKeepsInv(db, settings, id, task, runId, attempts);
      var effect: bool := *;
      ok := *;
      ok := ok || quiet;
      if ok || effect {
        db := Pushed(db, id, Written(settings, task, runId, id, attempts));
      }
      if !ok {
        storeFailures := storeFailures + 1;
      }
    }

    /** Storing the job, and looking again when the library's call failed. */
    method PushOrRecheck(task: Task, runId: string, id: string, attempts: int) returns (r: Result<Option<JobState>, Conflict>)
      requires Inv(db) && id !in db.jobs
      requires IsRunId(runId) && IsJobId(id) && 1 <= attempts <= settings.maxAttempts
      modifies this
      ensures Inv(db) && OnlyFor(old(db), db, id)
      ensures r.Ok? ==>
                var state := if r.value.Some? then r.value.value else IsQueued;
                && id in db.jobs && Places(db, id) == 1 && At(db, id, state) && ActiveAt(db, id, state)
                && Allowlisted(ReadBack(db, id), settings, Exact(task, runId, id, attempts))
      ensures storeFailures >= old(storeFailures) && (r == Ok(None) <==> storeFailures == old(storeFailures))
      ensures r == Ok(None) ==> db == Pushed(old(db), id, Written(settings, task, runId, id, attempts))
      ensures quiet ==> r == Ok(None) && db == Pushed(old(db), id, Written(settings, task, runId, id, attempts))
    {
      PushKeepsInv(db, settings, id, task, runId, attempts);
      var pushed := Push(task, runId, id, attempts);
      if pushed {
        return Ok(None);
      }
      ghost var before := db;
      var raced, _ := ExistingJob(task, runId, id, attempts);
      OnlyForTransitive(old(db), before, db, id);
      match raced {
        case Err(error) => return Err(error);
        case Ok(Some(state)) => return Ok(Some(state));
        case Ok(None) => return Err(QueueUnavailable);
      }
    }

    /** The arguments an enqueue does not refuse. */
    predicate GoodArguments(runId: string, id: string, attempts: int) {
      IsRunId(runId) && IsJobId(id) && 1 <= attempts <= settings.maxAttempts
    }

    /** `_enqueue_cleanup`. When it returns a job, that job is acceptable and in exactly one active
        place; an acceptable active job is returned as it is; a busy job is never touched; no other id is
        affected. When the library's call does not fail, store and answer are determined. */
    method EnqueueCleanup(task: Task, runId: string, id: string, attempts: int, create: bool)
      returns (r: Result<Enqueued, Conflict>)
      requires Inv(db)
      modifies this
      ensures Inv(db) && OnlyFor(old(db), db, id)
      ensures r.Ok? && r.value.state != IsMissing ==>
                && id in db.jobs && Places(db, id) == 1 && At(db, id, r.value.state) && ActiveAt(db, id, r.value.state)
                && Allowlisted(ReadBack(db, id), settings, Exact(task, runId, id, attempts))
      ensures r.Ok? && r.value.state == IsMissing ==> !create && id !in db.jobs
      ensures forall state :: GoodArguments(runId, id, attempts) && id in old(db).jobs && ActiveAt(old(db), id, state)
                              && Allowlisted(ReadBack(old(db), id), settings, Exact(task, runId, id, attempts)) ==>
                                r == Ok(Enqueued(true, state, None)) && db == old(db)
      ensures id in old(db).jobs && Busy(old(db), id) ==> db == old(db)
      ensures !IsRunId(runId) || !IsJobId(id) ==> r == Err(IdentityInvalid)
      ensures IsRunId(runId) && IsJobId(id) && !(1 <= attempts <= settings.maxAttempts) ==> r == Err(RetryPolicyUnsupported)
      ensures r.Ok? ==> GoodArguments(runId, id, attempts)
      ensures storeFailures > old(storeFailures) ==> r.Err? || (r.value.existing && r.value.repair == None)
      ensures r.Ok? && storeFailures == old(storeFailures) ==>
                (db, r) == EnqueueOn(old(db), settings, task, runId, id, attempts, create)
      ensures quiet && GoodArguments(runId, id, attempts) ==>
                (db, r) == EnqueueOn(old(db), settings, task, runId, id, attempts, create)
      ensures quiet ==>
                (r.Ok? <==> && GoodArguments(runId, id, attempts)
                            && !Blocked(old(db), settings, id, Exact(task, runId, id, attempts)))
      ensures quiet && r.Ok? ==>
                (r.value.existing <==> Reusable(old(db), settings, id, Exact(task, runId, id, attempts)))
                && (!r.value.existing ==> r.value.state == if create then IsQueued else IsMissing)
    {
      if !IsRunId(runId) || !IsJobId(id) {
        return Err(IdentityInvalid);
      }
      if attempts < 1 || attempts > settings.maxAttempts {
        return Err(RetryPolicyUnsupported);
      }
      PlaceIsOne(db, id);
      var existing, repair := ExistingJob(task, runId, id, attempts);
      match existing {
        case Err(error) => return Err(error);
        case Ok(Some(state)) => return Ok(Enqueued(true, state, None));
        case Ok(None) =>
      }
      if !create {
        return Ok(Enqueued(false, IsMissing, repair));
      }
      ghost var before := db;
      var stored := PushOrRecheck(task, runId, id, attempts);
      OnlyForTransitive(old(db), before, db, id);
      match stored {
        case Err(error) => return Err(error);
        case Ok(Some(state)) => return Ok(Enqueued(true, state, None));
        case Ok(None) => return Ok(Enqueued(false, IsQueued, repair));
      }
    }

    /** Enqueueing again what an enqueue has returned finds it where it was said to be, and changes nothing. */
    method EnqueueTwice(task: Task, runId: string, id: string, attempts: int, create: bool, again: bool)
      returns (first: Result<Enqueued, Conflict>, second: Result<Enqueued, Conflict>, ghost between: Redis)
      requires Inv(db)
      modifies this
      ensures first.Ok? && first.value.state != IsMissing ==>
                second == Ok(Enqueued(true, first.value.state, None)) && db == between
    {
      first := EnqueueCleanup(task, runId, id, attempts, create);
      between := db;
      second := EnqueueCleanup(task, runId, id, attempts, again);
    }
  }
}
