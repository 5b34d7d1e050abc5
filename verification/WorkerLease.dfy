/** The worker's side of the job lease: two loops with requests in flight against the Manager, a
    deadline watchdog, and the precedence of cancellation over internal failure.

    Instants and durations are integers of one unit. The wall clock and the monotonic clock are
    separate; the former may be stepped back, and `lease_deadline` is kept in the latter. */
module WorkerLease {
  import opened Common

  datatype Job = Job(expires: int, deadline: int, cancelled: bool, reason: Option<string>,
                     fatal: Option<string>, changed: bool)

  datatype Clock = Clock(wall: int, mono: int)

  // ----- ActiveJob -----

  function Cancel(j: Job, reason: string): Job {
    j.(fatal := None, cancelled := true, reason := Some(reason))
  }

  function Fail(j: Job, error: string, reason: string): Job {
    if j.cancelled then j else j.(fatal := Some(error), cancelled := true, reason := Some(reason))
  }

  /** Whether a response may keep the job running, and the job after it. */
  function Accept(j: Job, candidate: int, source: string, baseline: Option<int>, now: Clock): (Job, bool) {
    if j.expires <= now.wall || candidate <= now.wall || (baseline.Some? && candidate <= baseline.value) then
      (Cancel(j, source + " returned an invalid lease expiry"), false)
    else if baseline.Some? && candidate < j.expires then
      (j, true)
    else if candidate < j.expires then
      (Cancel(j, source + " returned an invalid lease expiry"), false)
    else if candidate > j.expires then
      (j.(expires := candidate, deadline := now.mono + (candidate - now.wall), changed := true), true)
    else
      (j, true)
  }

  /** `_remaining_lease_seconds`: the smaller of the two clocks' opinions. */
  function Remaining(j: Job, now: Clock): int {
    Min(j.expires - now.wall, j.deadline - now.mono)
  }

  /** The mutable object the loops share. */
  class ActiveJob {
    var leaseExpiresAt: int
    var leaseDeadline: int
    var cancellation: bool
    var cancellationReason: Option<string>
    var fatalError: Option<string>
    var leaseChanged: bool

    function View(): Job
      reads this
    {
      Job(leaseExpiresAt, leaseDeadline, cancellation, cancellationReason, fatalError, leaseChanged)
    }

    constructor (claimExpiry: int, now: Clock)
      ensures View() == Claimed(claimExpiry, now)
    {
      leaseExpiresAt := claimExpiry;
      leaseDeadline := now.mono + Max(0, claimExpiry - now.wall);
      cancellation, cancellationReason, fatalError, leaseChanged := false, None, None, false;
    }

    method CancelJob(reason: string)
      modifies this
      ensures View() == Cancel(old(View()), reason)
    {
      fatalError := None;
      if !cancellation {
        cancellationReason := Some(reason);
        cancellation := true;
      } else {
        cancellationReason := Some(reason);
      }
    }

    method FailJob(error: string, reason: string)
      modifies this
      ensures View() == Fail(old(View()), error, reason)
    {
      if !cancellation {
        fatalError := Some(error);
        cancellationReason := Some(reason);
        cancellation := true;
      }
    }

    method AcceptLeaseExpiry(candidate: int, source: string, baseline: Option<int>, now: Clock) returns (ok: bool)
      modifies this
      ensures (View(), ok) == Accept(old(View()), candidate, source, baseline, now)
    {
      var current := leaseExpiresAt;
      if current <= now.wall || candidate <= now.wall || (baseline.Some? && candidate <= baseline.value) {
        CancelJob(source + " returned an invalid lease expiry");
        return false;
      }
      if baseline.Some? && candidate < current {
        return true;
      }
      if candidate < current {
        CancelJob(source + " returned an invalid lease expiry");
        return false;
      }
      if candidate > current {
        leaseExpiresAt := candidate;
        leaseDeadline := now.mono + (candidate - now.wall);
        leaseChanged := true;
      }
      ok := true;
    }
  }

  /** The job as a claim creates it. */
  function Claimed(expiry: int, now: Clock): Job {
    Job(expiry, now.mono + Max(0, expiry - now.wall), false, None, None, false)
  }

  // ----- Cancellation against failure, over any sequence of calls -----

  datatype Stop = ByCancel(why: string) | ByFailure(error: string, why: string)

  function Stopped(j: Job, calls: seq<Stop>): Job {
    if calls == [] then j else
      var before := Stopped(j, calls[..|calls| - 1]);
      match calls[|calls| - 1]
      case ByCancel(why) => Cancel(before, why)
      case ByFailure(error, why) => Fail(before, error, why)
  }

  /** What the agent reports at the end: an internal failure, or else a cancellation. */
  datatype Terminal = FailedWith(error: string) | CancelledBecause(why: Option<string>) | NotStopped

  function TerminalStatus(j: Job): Terminal {
    if j.fatal.Some? then FailedWith(j.fatal.value) else if j.cancelled then CancelledBecause(j.reason) else NotStopped
  }

  ghost predicate LastCancel(calls: seq<Stop>, i: nat) {
    i < |calls| && calls[i].ByCancel? && forall k :: i < k < |calls| ==> calls[k].ByFailure?
  }

  /** Whatever the order: with any cancellation the job ends cancelled for the last one's reason;
      with failures only it ends with the first failure. */
  lemma {:induction false} CancelOutranksFailure(j: Job, calls: seq<Stop>)
    requires !j.cancelled && j.fatal == None
    ensures forall i: nat :: LastCancel(calls, i) ==> TerminalStatus(Stopped(j, calls)) == CancelledBecause(Some(calls[i].why))
    ensures calls != [] && (forall k :: 0 <= k < |calls| ==> calls[k].ByFailure?) ==>
              TerminalStatus(Stopped(j, calls)) == FailedWith(calls[0].error) && Stopped(j, calls).reason == Some(calls[0].why)
    ensures Stopped(j, calls).cancelled <==> calls != []
  {
    if calls != [] {
      var init, last := calls[..|calls| - 1], |calls| - 1;
      CancelOutranksFailure(j, init);
      forall i: nat | LastCancel(calls, i)
        ensures TerminalStatus(Stopped(j, calls)) == CancelledBecause(Some(calls[i].why))
      {
        if i < last {
          assert calls[last].ByFailure?;
          assert LastCancel(init, i);
        }
      }
      if init == [] {
        assert Stopped(j, init) == j;
      }
    }
  }

  // ----- The transition system -----

  /** A Manager's answer: the new expiry, if any, and whether it asks for cancellation. */
  datatype Reply = Reply(grant: Option<int>, cancelJob: bool)

  /** A request in flight, with the expiry its sender had read before sending it. */
  datatype Flight = Heartbeat(baseline: int, reply: Option<Reply>) | Renewal(baseline: int, reply: Option<Reply>)

  datatype World = World(job: Job, now: Clock, lastGrant: int, flights: map<nat, Flight>,
                         renewing: bool, leaseLoop: bool, finished: bool)

  datatype Event =
    | Tick(wall: int, mono: nat)
    | SendHeartbeat(id: nat)
    | SendRenewal(id: nat)
    | ManagerGrants(id: nat, expiry: int, cancelJob: bool)
    | ManagerOnlyAnswers(id: nat, cancelJob: bool)
    | GrantUnheard(expiry: int)
    | ReceiveHeartbeat(id: nat)
    | ReceiveRenewal(id: nat)
    | HeartbeatLost(id: nat)
    | RenewalTimesOut(id: nat)
    | RenewalRefused(id: nat, gone: bool)
    | CheckDeadline
    | CheckLeaseLoop
    | InternalFailure(error: string)
    | ExplicitCancel(why: string)
    | Finish

  function Start(expiry: int, now: Clock): World {
    World(Claimed(expiry, now), now, expiry, map[], false, true, false)
  }

  /** When an event can happen. Grants of the Manager strictly increase. */
  predicate Enabled(w: World, e: Event) {
    match e
    case Tick(_, _) => true
    case SendHeartbeat(id) => id !in w.flights
    case SendRenewal(id) =>
      id !in w.flights && w.leaseLoop && !w.renewing && !w.finished && !w.job.cancelled && Remaining(w.job, w.now) > 0
    case ManagerGrants(id, expiry, _) => id in w.flights && w.flights[id].reply == None && expiry > w.lastGrant
    case ManagerOnlyAnswers(id, _) => id in w.flights && w.flights[id].reply == None && w.flights[id].Heartbeat?
    case GrantUnheard(expiry) => expiry > w.lastGrant
    case ReceiveHeartbeat(id) => id in w.flights && w.flights[id].Heartbeat? && w.flights[id].reply.Some?
    case ReceiveRenewal(id) =>
      && id in w.flights && w.flights[id].Renewal? && w.flights[id].reply.Some?
      && w.flights[id].reply.value.grant.Some?
    case HeartbeatLost(id) => id in w.flights && w.flights[id].Heartbeat?
    case RenewalTimesOut(id) => id in w.flights && w.flights[id].Renewal?
    case RenewalRefused(id, _) => id in w.flights && w.flights[id].Renewal?
    case CheckDeadline => !w.finished && !w.job.cancelled
    case CheckLeaseLoop => w.leaseLoop && !w.renewing && !w.finished && !w.job.cancelled
    case InternalFailure(_) => true
    case ExplicitCancel(_) => true
    case Finish => true
  }

  function Landed(w: World, id: nat): World {
    w.(flights := w.flights - {id})
  }

  function HeartbeatReceived(w: World, f: Flight): (v: World)
    requires f.reply.Some?
    ensures v.flights == w.flights && v.now == w.now && v.lastGrant == w.lastGrant
  {
    var r := f.reply.value;
    var job := if r.cancelJob then Cancel(w.job, "manager cancellation") else w.job;
    if !job.cancelled && r.grant.Some? then
      w.(job := Accept(job, r.grant.value, "Manager heartbeat", Some(f.baseline), w.now).0)
    else w.(job := job)
  }

  function RenewalReceived(w: World, f: Flight): (v: World)
    requires f.reply.Some? && f.reply.value.grant.Some?
    ensures v.flights == w.flights && v.now == w.now && v.lastGrant == w.lastGrant
  {
    var expiry := f.reply.value.grant.value;
    if expiry <= f.baseline then
      w.(job := Cancel(w.job, "Manager renewal did not extend the lease"), leaseLoop := false, renewing := false)
    else
      var (job, ok) := Accept(w.job, expiry, "Manager renewal", Some(f.baseline), w.now);
      w.(job := job, leaseLoop := w.leaseLoop && ok, renewing := false)
  }

  function Next(w: World, e: Event): World
    requires Enabled(w, e)
  {
    match e
    case Tick(wall, mono) => w.(now := Clock(w.now.wall + wall, w.now.mono + mono))
    case SendHeartbeat(id) => w.(flights := w.flights[id := Heartbeat(w.job.expires, None)])
    case SendRenewal(id) => w.(flights := w.flights[id := Renewal(w.job.expires, None)], renewing := true)
    case ManagerGrants(id, expiry, cancelJob) =>
      w.(lastGrant := expiry, flights := w.flights[id := w.flights[id].(reply := Some(Reply(Some(expiry), cancelJob)))])
    case ManagerOnlyAnswers(id, cancelJob) =>
      w.(flights := w.flights[id := w.flights[id].(reply := Some(Reply(None, cancelJob)))])
    case GrantUnheard(expiry) => w.(lastGrant := expiry)
    case ReceiveHeartbeat(id) => HeartbeatReceived(Landed(w, id), w.flights[id])
    case ReceiveRenewal(id) => RenewalReceived(Landed(w, id), w.flights[id])
    case HeartbeatLost(id) => Landed(w, id)
    case RenewalTimesOut(id) =>
      var v := Landed(w, id).(renewing := false);
      if Remaining(w.job, w.now) <= 0 || w.job.expires <= w.flights[id].baseline
      then v.(job := Cancel(w.job, "lease renewal exceeded the active lease deadline"), leaseLoop := false)
      else v
    case RenewalRefused(id, gone) =>
      var v := Landed(w, id).(renewing := false);
      if gone || w.now.wall >= w.job.expires then v.(job := Cancel(w.job, "lease expired"), leaseLoop := false) else v
    case CheckDeadline =>
      if Remaining(w.job, w.now) <= 0 then w.(job := Cancel(w.job, "lease expired")) else w.(job := w.job.(changed := false))
    case CheckLeaseLoop =>
      if Remaining(w.job, w.now) <= 0 then w.(job := Cancel(w.job, "lease expired"), leaseLoop := false) else w
    case InternalFailure(error) => w.(job := Fail(w.job, error, "internal failure"))
    case ExplicitCancel(why) => w.(job := Cancel(w.job, why))
    case Finish => w.(finished := true, job := w.job.(changed := true))
  }

  /** A run: states and the events between them. */
  ghost predicate IsRun(states: seq<World>, events: seq<Event>) {
    && |states| == |events| + 1
    && forall i :: 0 <= i < |events| ==> Enabled(states[i], events[i]) && states[i + 1] == Next(states[i], events[i])
  }

  // ----- What every step keeps -----

  ghost predicate FlightInv(w: World, f: Flight) {
    && f.baseline <= w.job.expires
    && (f.reply.Some? && f.reply.value.grant.Some? ==> f.baseline < f.reply.value.grant.value <= w.lastGrant)
  }

  ghost predicate Inv(w: World) {
    && w.job.expires <= w.lastGrant
    && (w.job.fatal.Some? ==> w.job.cancelled)
    && forall id :: id in w.flights ==> FlightInv(w, w.flights[id])
  }

  /** A response can only raise the expiry, at most to its own grant, and never of an expired lease. */
  lemma AcceptFacts(j: Job, candidate: int, source: string, baseline: Option<int>, now: Clock)
    ensures var (after, ok) := Accept(j, candidate, source, baseline, now);
            && (after.expires == j.expires || j.expires < after.expires == candidate)
            && (j.expires <= now.wall ==> after.expires == j.expires && !ok)
            && (after.fatal.Some? ==> after.fatal == j.fatal && after.cancelled == j.cancelled)
            && (j.cancelled ==> after.cancelled)
  {}

  /** What one event does to the expiry and to the flag that goes with a fatal error. */
  lemma StepJob(w: World, e: Event)
    requires Inv(w) && Enabled(w, e)
    ensures var v := Next(w, e);
            && w.job.expires <= v.job.expires <= v.lastGrant && w.lastGrant <= v.lastGrant
            && (w.job.expires <= w.now.wall ==> v.job.expires == w.job.expires)
            && (v.job.fatal.Some? ==> v.job.cancelled)
            && (w.job.cancelled ==> v.job.cancelled)
            && (w.job.cancelled && w.job.fatal == None ==> v.job.fatal == None)
  {
    match e {
      case ReceiveHeartbeat(id) =>
        var f := w.flights[id];
        assert FlightInv(w, f);
        var r := f.reply.value;
        var job := if r.cancelJob then Cancel(w.job, "manager cancellation") else w.job;
        if r.grant.Some? {
          AcceptFacts(job, r.grant.value, "Manager heartbeat", Some(f.baseline), w.now);
        }
      case ReceiveRenewal(id) =>
        var f := w.flights[id];
        assert FlightInv(w, f);
        AcceptFacts(w.job, f.reply.value.grant.value, "Manager renewal", Some(f.baseline), w.now);
      case _ =>
    }
  }

  lemma StepFlight(w: World, e: Event, id: nat)
    requires Inv(w) && Enabled(w, e) && id in Next(w, e).flights
    ensures FlightInv(Next(w, e), Next(w, e).flights[id])
  {
    StepJob(w, e);
    if id in w.flights {
      assert FlightInv(w, w.flights[id]);
    }
  }

  lemma StepKeepsInv(w: World, e: Event)
    requires Inv(w) && Enabled(w, e)
    ensures Inv(Next(w, e))
  {
    StepJob(w, e);
    forall id | id in Next(w, e).flights
      ensures FlightInv(Next(w, e), Next(w, e).flights[id])
    {
      StepFlight(w, e, id);
    }
  }

  lemma {:induction false} RunKeepsInv(states: seq<World>, events: seq<Event>, i: nat)
    requires IsRun(states, events) && Inv(states[0]) && i < |states|
    ensures Inv(states[i])
  {
    if i > 0 {
      RunKeepsInv(states, events, i - 1);
      StepKeepsInv(states[i - 1], events[i - 1]);
    }
  }

  /** Over every run the expiry never decreases and never exceeds the Manager's last grant. */
  lemma {:induction false} ExpiryOnlyGrows(states: seq<World>, events: seq<Event>, i: nat, j: nat)
    requires IsRun(states, events) && Inv(states[0]) && i <= j < |states|
    ensures states[i].job.expires <= states[j].job.expires <= states[j].lastGrant
    decreases j
  {
    RunKeepsInv(states, events, j);
    if i < j {
      ExpiryOnlyGrows(states, events, i, j - 1);
      RunKeepsInv(states, events, j - 1);
      StepJob(states[j - 1], events[j - 1]);
    }
  }

  // ----- An expired lease stays expired -----

  /** While the wall clock stays at or past its expiry a lease is not extended. */
  lemma {:induction false} ExpiredStaysExpired(states: seq<World>, events: seq<Event>, i: nat, j: nat)
    requires IsRun(states, events) && Inv(states[0]) && i <= j < |states|
    requires forall k :: i <= k < j ==> states[i].job.expires <= states[k].now.wall
    ensures states[j].job.expires == states[i].job.expires
    decreases j
  {
    if i < j {
      ExpiredStaysExpired(states, events, i, j - 1);
      RunKeepsInv(states, events, j - 1);
      StepJob(states[j - 1], events[j - 1]);
    }
  }

  /** The clock stepping back is enough to break this: the lease has run out by both clocks, and after
      the step a heartbeat's response still extends it. */
  lemma SteppedBackClockRevives()
    ensures var w := Next(Next(Next(Start(100, Clock(0, 0)), SendHeartbeat(0)), ManagerGrants(0, 200, false)), Tick(150, 150));
            var v := Next(w, Tick(-60, 0));
            && w.job.expires <= w.now.wall && w.job.deadline <= w.now.mono
            && Enabled(v, ReceiveHeartbeat(0))
            && Remaining(Next(v, ReceiveHeartbeat(0)).job, v.now) > 0
  {
    var w := Next(Next(Start(100, Clock(0, 0)), SendHeartbeat(0)), ManagerGrants(0, 200, false));
    assert w.flights[0] == Heartbeat(100, Some(Reply(Some(200), false)));
    var v := Next(Next(w, Tick(150, 150)), Tick(-60, 0));
    assert v.flights[0] == w.flights[0];
  }

  // ----- Responses and live leases -----

  /** When the job is not cancelled yet, a renewal's response cancels it exactly when the lease has
      already run out or the grant has; otherwise the later of the two expiries is kept. Overtaken
      responses are therefore harmless. */
  lemma RenewalCancelsOnlyWhenLate(w: World, id: nat)
    requires Inv(w) && Enabled(w, ReceiveRenewal(id)) && !w.job.cancelled
    ensures var v := Next(w, ReceiveRenewal(id));
            var grant := w.flights[id].reply.value.grant.value;
            && (v.job.cancelled <==> w.job.expires <= w.now.wall || grant <= w.now.wall)
            && (!v.job.cancelled ==> v.job.expires == Max(w.job.expires, grant) && v.leaseLoop == w.leaseLoop)
            && (v.job.cancelled ==> v.job.expires == w.job.expires && !v.leaseLoop)
  {
    assert FlightInv(w, w.flights[id]);
  }

  /** The same for a heartbeat; one that brings no grant changes nothing, and only the Manager's own
      request cancels a live lease. */
  lemma HeartbeatCancelsOnlyWhenLate(w: World, id: nat)
    requires Inv(w) && Enabled(w, ReceiveHeartbeat(id)) && !w.job.cancelled
    ensures var v := Next(w, ReceiveHeartbeat(id));
            var r := w.flights[id].reply.value;
            && (v.job.cancelled <==>
                  || r.cancelJob
                  || (r.grant.Some? && (w.job.expires <= w.now.wall || r.grant.value <= w.now.wall)))
            && (!v.job.cancelled ==>
                  v.job.expires == if r.grant.Some? then Max(w.job.expires, r.grant.value) else w.job.expires)
  {
    assert FlightInv(w, w.flights[id]);
  }

  // ----- Explicit cancellation over whole runs -----

  /** The events by which the Manager or an operator cancels the job. */
  predicate CancelsExplicitly(w: World, e: Event)
    requires Enabled(w, e)
  {
    || e.ExplicitCancel?
    || (e.ReceiveHeartbeat? && w.flights[e.id].reply.value.cancelJob)
  }

  lemma ExplicitStep(w: World, e: Event)
    requires Enabled(w, e) && CancelsExplicitly(w, e)
    ensures Next(w, e).job.cancelled && Next(w, e).job.fatal == None
  {}

  ghost predicate CancelledForGood(j: Job) {
    j.cancelled && j.fatal == None
  }

  lemma {:induction false} CancelledStaysCancelled(states: seq<World>, events: seq<Event>, i: nat, j: nat)
    requires IsRun(states, events) && Inv(states[0]) && i <= j < |states|
    requires CancelledForGood(states[i].job)
    ensures CancelledForGood(states[j].job)
    decreases j
  {
    if i < j {
      CancelledStaysCancelled(states, events, i, j - 1);
      RunKeepsInv(states, events, j - 1);
      StepJob(states[j - 1], events[j - 1]);
    }
  }

  /** Whatever else happens before or after it, internal failures included, an explicit cancellation
      anywhere in a run makes the job end as cancelled. */
  lemma ExplicitCancelIsFinal(states: seq<World>, events: seq<Event>, i: nat, j: nat)
    requires IsRun(states, events) && Inv(states[0]) && i < j < |states|
    requires CancelsExplicitly(states[i], events[i])
    ensures TerminalStatus(states[j].job).CancelledBecause?
  {
    ExplicitStep(states[i], events[i]);
    CancelledStaysCancelled(states, events, i + 1, j);
  }

  // ----- Exactly when a job is cancelled -----

  predicate OutOfTime(w: World) { w.job.expires <= w.now.wall || w.job.deadline <= w.now.mono }

  /** What cancels a live job, told by the expiry, the deadline and the two clocks. */
  predicate Cancels(w: World, e: Event)
    requires Enabled(w, e)
  {
    match e
    case CheckDeadline => OutOfTime(w)
    case CheckLeaseLoop => OutOfTime(w)
    case RenewalTimesOut(id) => OutOfTime(w) || w.job.expires == w.flights[id].baseline
    case RenewalRefused(_, gone) => gone || w.job.expires <= w.now.wall
    case ReceiveRenewal(id) => w.job.expires <= w.now.wall || w.flights[id].reply.value.grant.value <= w.now.wall
    case ReceiveHeartbeat(id) =>
      var r := w.flights[id].reply.value;
      r.cancelJob || (r.grant.Some? && (w.job.expires <= w.now.wall || r.grant.value <= w.now.wall))
    case InternalFailure(_) => true
    case ExplicitCancel(_) => true
    case _ => false
  }

  /** Why, for the events that find the lease run out. */
  function Reason(e: Event): Option<string> {
    match e
    case CheckDeadline => Some("lease expired")
    case CheckLeaseLoop => Some("lease expired")
    case RenewalRefused(_, _) => Some("lease expired")
    case RenewalTimesOut(_) => Some("lease renewal exceeded the active lease deadline")
    case _ => None
  }

  /** The checks of the two loops, on their own. */
  lemma ChecksExactly(w: World, e: Event)
    requires Inv(w) && Enabled(w, e) && !w.job.cancelled && Reason(e).Some?
    ensures Cancels(w, e) ==> Next(w, e).job == w.job.(cancelled := true, fatal := None, reason := Reason(e))
    ensures Cancels(w, e) && !e.CheckDeadline? ==> !Next(w, e).leaseLoop
    ensures !Cancels(w, e) ==>
              && Next(w, e).leaseLoop == w.leaseLoop
              && Next(w, e).job == (if e.CheckDeadline? then w.job.(changed := false) else w.job)
  {
    if e.RenewalTimesOut? {
      assert FlightInv(w, w.flights[e.id]);
    }
  }

  /** One step cancels a live job exactly on its condition; a check that does so gives the stated reason, and
      one that does not leaves the job's times alone. */
  lemma CancelledExactly(w: World, e: Event)
    requires Inv(w) && Enabled(w, e) && !w.job.cancelled
    ensures Next(w, e).job.cancelled <==> Cancels(w, e)
    ensures Cancels(w, e) && Reason(e).Some? ==>
              Next(w, e).job == w.job.(cancelled := true, fatal := None, reason := Reason(e))
    ensures !Cancels(w, e) && Reason(e).Some? ==> Next(w, e).job.(changed := w.job.changed) == w.job
  {
    if Reason(e).Some? {
      ChecksExactly(w, e);
    } else if e.ReceiveRenewal? {
      RenewalCancelsOnlyWhenLate(w, e.id);
    } else if e.ReceiveHeartbeat? {
      HeartbeatCancelsOnlyWhenLate(w, e.id);
    }
  }

  /** The watchdog can always check a job that runs, and a check that finds it out of time by either clock
      ends it for good. */
  lemma DeadlineCheckEnds(states: seq<World>, events: seq<Event>, i: nat, j: nat)
    requires IsRun(states, events) && Inv(states[0]) && i < j < |states|
    requires OutOfTime(states[i]) && !states[i].finished && events[i] == CheckDeadline
    ensures states[j].job.cancelled
  {
    RunKeepsInv(states, events, i);
    CancelledExactly(states[i], events[i]);
    CancelledRemains(states, events, i + 1, j);
  }

  lemma DeadlineCheckIsOpen(w: World)
    ensures Enabled(w, CheckDeadline) <==> !w.finished && !w.job.cancelled
  {}

  lemma {:induction false} CancelledRemains(states: seq<World>, events: seq<Event>, i: nat, j: nat)
    requires IsRun(states, events) && Inv(states[0]) && i <= j < |states| && states[i].job.cancelled
    ensures states[j].job.cancelled
    decreases j
  {
    if i < j {
      CancelledRemains(states, events, i, j - 1);
      RunKeepsInv(states, events, j - 1);
      StepJob(states[j - 1], events[j - 1]);
    }
  }

  /** Over every run, a job that starts live is cancelled exactly when some step before has met its condition
      for cancelling. */
  lemma {:induction false} CancelledOnlyOnCondition(states: seq<World>, events: seq<Event>, j: nat)
    requires IsRun(states, events) && Inv(states[0]) && !states[0].job.cancelled && j < |states|
    ensures states[j].job.cancelled <==>
              exists i :: 0 <= i < j && !states[i].job.cancelled && Cancels(states[i], events[i])
  {
    if j > 0 {
      var k := j - 1;
      CancelledOnlyOnCondition(states, events, k);
      RunKeepsInv(states, events, k);
      StepJob(states[k], events[k]);
      if !states[k].job.cancelled {
        CancelledExactly(states[k], events[k]);
      }
    }
  }

  /** A request in flight carries the expiry its sender saw when it was sent. So a renewal that times out in
      time cancels exactly when no other response has moved the expiry since. */
  lemma {:induction false} SentWithExpiry(states: seq<World>, events: seq<Event>, j: nat, id: nat) returns (i: nat)
    requires IsRun(states, events) && states[0].flights == map[] && j < |states| && id in states[j].flights
    ensures i < j && (events[i] == SendHeartbeat(id) || events[i] == SendRenewal(id))
    ensures states[j].flights[id].Renewal? <==> events[i] == SendRenewal(id)
    ensures states[j].flights[id].baseline == states[i].job.expires
  {
    var k := j - 1;
    if events[k] == SendHeartbeat(id) || events[k] == SendRenewal(id) {
      i := k;
    } else {
      FlightsGoOn(states[k], events[k], id);
      i := SentWithExpiry(states, events, k, id);
    }
  }

  predicate SameRequest(w: World, v: World, id: nat)
    requires id in v.flights
  {
    && id in w.flights
    && v.flights[id].baseline == w.flights[id].baseline && (v.flights[id].Renewal? <==> w.flights[id].Renewal?)
  }

  lemma FlightsGoOn(w: World, e: Event, id: nat)
    requires Enabled(w, e) && id in Next(w, e).flights && e != SendHeartbeat(id) && e != SendRenewal(id)
    ensures SameRequest(w, Next(w, e), id)
  {
    match e {
      case ReceiveHeartbeat(other) => assert Next(w, e).flights == w.flights - {other};
      case ReceiveRenewal(other) => assert Next(w, e).flights == w.flights - {other};
      case HeartbeatLost(other) => assert Next(w, e).flights == w.flights - {other};
      case RenewalTimesOut(other) => assert Next(w, e).flights == w.flights - {other};
      case RenewalRefused(other, _) => assert Next(w, e).flights == w.flights - {other};
      case ManagerGrants(other, _, _) =>
      case ManagerOnlyAnswers(other, _) =>
      case SendHeartbeat(other) =>
      case SendRenewal(other) =>
      case _ => assert Next(w, e).flights == w.flights;
    }
  }

  // ----- Two clocks -----

  /** A response revives a lease that is out of time exactly when only the monotonic clock says so. */
  lemma RevivalExactly(j: Job, candidate: int, source: string, baseline: Option<int>, now: Clock)
    requires Remaining(j, now) <= 0
    ensures Accept(j, candidate, source, baseline, now).0.expires > j.expires
            <==> now.wall < j.expires < candidate && (baseline.Some? ==> baseline.value < candidate)
    ensures now.wall < j.expires ==> j.deadline <= now.mono
  {}

  /** The wall clock falling behind the monotonic one is enough: the deadline has passed, and a
      heartbeat's response still extends the lease. */
  lemma SlowWallClockRevives()
    ensures var w := Next(Next(Next(Start(100, Clock(0, 0)), SendHeartbeat(0)), ManagerGrants(0, 200, false)), Tick(60, 100));
            && Remaining(w.job, w.now) <= 0
            && Enabled(w, ReceiveHeartbeat(0))
            && Remaining(Next(w, ReceiveHeartbeat(0)).job, w.now) > 0
  {
    var w := Next(Next(Start(100, Clock(0, 0)), SendHeartbeat(0)), ManagerGrants(0, 200, false));
    assert w.flights[0] == Heartbeat(100, Some(Reply(Some(200), false)));
    var v := Next(w, Tick(60, 100));
    assert v.flights[0] == w.flights[0];
  }

  /** While both clocks advance together, they agree on the time left, or that there is none. */
  ghost predicate Agree(j: Job, now: Clock) {
    j.deadline - now.mono == j.expires - now.wall || (j.expires <= now.wall && j.deadline <= now.mono)
  }

  ghost predicate ClocksAgree(w: World) {
    Agree(w.job, w.now)
  }

  lemma AcceptKeepsAgreement(j: Job, candidate: int, source: string, baseline: Option<int>, now: Clock)
    requires Agree(j, now)
    ensures Agree(Accept(j, candidate, source, baseline, now).0, now)
    ensures Remaining(j, now) <= 0 ==>
              var after := Accept(j, candidate, source, baseline, now).0;
              after.expires == j.expires && after.deadline == j.deadline
  {}

  predicate NoDrift(e: Event) {
    e.Tick? ==> e.wall == e.mono
  }

  /** The clocks' opinion is kept, and a job that is out of time keeps its times. */
  ghost predicate KeepsTimes(w: World, v: World) {
    && v.now == w.now && Agree(v.job, v.now)
    && (Remaining(w.job, w.now) <= 0 ==> v.job.expires == w.job.expires && v.job.deadline == w.job.deadline)
  }

  lemma HeartbeatKeepsTimes(w: World, f: Flight)
    requires f.reply.Some? && ClocksAgree(w)
    ensures KeepsTimes(w, HeartbeatReceived(w, f))
  {
    var job := if f.reply.value.cancelJob then Cancel(w.job, "manager cancellation") else w.job;
    if f.reply.value.grant.Some? {
      AcceptKeepsAgreement(job, f.reply.value.grant.value, "Manager heartbeat", Some(f.baseline), w.now);
    }
  }

  lemma RenewalKeepsTimes(w: World, f: Flight)
    requires f.reply.Some? && f.reply.value.grant.Some? && ClocksAgree(w)
    ensures KeepsTimes(w, RenewalReceived(w, f))
  {
    AcceptKeepsAgreement(w.job, f.reply.value.grant.value, "Manager renewal", Some(f.baseline), w.now);
  }

  lemma StepKeepsAgreement(w: World, e: Event)
    requires Enabled(w, e) && ClocksAgree(w) && NoDrift(e)
    ensures ClocksAgree(Next(w, e))
    ensures Remaining(w.job, w.now) <= 0 ==>
              Next(w, e).job.expires == w.job.expires && Remaining(Next(w, e).job, Next(w, e).now) <= 0
  {
    if e.ReceiveHeartbeat? {
      HeartbeatKeepsTimes(Landed(w, e.id), w.flights[e.id]);
    } else if e.ReceiveRenewal? {
      RenewalKeepsTimes(Landed(w, e.id), w.flights[e.id]);
    }
  }

  /** Without drift, a lease that is out of time by either clock is never revived. */
  lemma {:induction false} OutOfTimeStaysOutOfTime(states: seq<World>, events: seq<Event>, i: nat, j: nat)
    requires IsRun(states, events) && ClocksAgree(states[0]) && i <= j < |states|
    requires forall k :: 0 <= k < |events| ==> NoDrift(events[k])
    ensures ClocksAgree(states[j])
    ensures Remaining(states[i].job, states[i].now) <= 0 ==>
              states[j].job.expires == states[i].job.expires && Remaining(states[j].job, states[j].now) <= 0
    decreases j
  {
    if j > 0 {
      OutOfTimeStaysOutOfTime(states, events, if i < j then i else j - 1, j - 1);
      StepKeepsAgreement(states[j - 1], events[j - 1]);
    }
  }

  lemma StartAgrees(expiry: int, now: Clock)
    ensures Inv(Start(expiry, now)) && ClocksAgree(Start(expiry, now))
  {}
}
