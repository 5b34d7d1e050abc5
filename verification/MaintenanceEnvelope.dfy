/** What the maintenance queue writes into a job and what its worker accepts from one. */
module MaintenanceEnvelope {
  import opened Common

  /** The settings the envelope depends on; configuration bounds make every number positive. */
  datatype Settings = Settings(queueName: string, backoff: nat, backoffMax: nat, timeout: nat, maxAttempts: nat)

  datatype Task = DatasetCleanup | TestSetCleanup

  const RESULT_TTL: nat := 86_400
  const FAILURE_TTL: nat := 604_800
  const JOB_TTL: nat := 86_400

  /** A callable path or description: one of the fixed texts of a task, or any other text. The fixed
      texts are pairwise different. */
  datatype Text = PathOf(task: Task) | DescriptionOf(task: Task) | OtherText(text: string)

  /** A stored job as the worker reads it back. The last fields are those that must be unset. */
  datatype Envelope = Envelope(
    jsonSerializer: bool, origin: string, id: string, path: Text, description: Text,
    args: seq<string>, kwargs: map<string, string>, timeout: Option<int>, resultTtl: Option<int>,
    failureTtl: Option<int>, ttl: Option<int>,
    retryIntervals: Option<seq<int>>, retriesLeft: Option<int>,
    meta: map<string, string>, dependencies: set<string>, dependents: set<string>,
    unset: Unset)

  /** Fields no maintenance job may carry. */
  datatype Unset = Unset(
    instance: Option<string>, numberOfRetries: Option<int>, groupId: Option<string>,
    allowDependencyFailures: Option<bool>, enqueueAtFront: Option<bool>, repeatsLeft: Option<int>,
    repeatIntervals: Option<seq<int>>, callbacks: set<string>)

  const Nothing := Unset(None, None, None, None, None, None, None, {})

  // ----- Identities -----

  predicate LowerHex(c: char) { '0' <= c <= '9' || 'a' <= c <= 'f' }

  const ID_PREFIX: string := "rvc-maintenance-"

  /** The prefix and 64 lower-case hexadecimal digits. */
  predicate IsJobId(id: string) {
    && |id| == |ID_PREFIX| + 64 && id[..|ID_PREFIX|] == ID_PREFIX
    && forall i :: |ID_PREFIX| <= i < |id| ==> LowerHex(id[i])
  }

  /** The canonical text of a UUID: lower-case digits in groups of 8, 4, 4, 4 and 12. */
  predicate IsRunId(s: string) {
    && |s| == 36
    && forall i :: 0 <= i < 36 ==> if i in {8, 13, 18, 23} then s[i] == '-' else LowerHex(s[i])
  }

  predicate AllHex(s: string) { forall i :: 0 <= i < |s| ==> s[i] in "0123456789abcdef" }

  lemma HexDigits(c: char)
    ensures LowerHex(c) <==> c in "0123456789abcdef"
  {
    if '0' <= c <= '9' {
      assert "0123456789abcdef"[c as int - '0' as int] == c;
    } else if 'a' <= c <= 'f' {
      assert "0123456789abcdef"[10 + (c as int - 'a' as int)] == c;
    }
  }

  /** Exactly the prefix followed by 64 lower-case hexadecimal digits is a job id. */
  lemma JobIdExactly(tail: string)
    ensures IsJobId(ID_PREFIX + tail) <==> |tail| == 64 && AllHex(tail)
    ensures forall id :: IsJobId(id) ==> ID_PREFIX <= id
  {
    var id := ID_PREFIX + tail;
    forall i | 0 <= i < |tail|
      ensures id[|ID_PREFIX| + i] == tail[i] && (LowerHex(tail[i]) <==> tail[i] in "0123456789abcdef")
    {
      HexDigits(tail[i]);
    }
    if IsJobId(id) {
      forall i | 0 <= i < |tail|
        ensures LowerHex(tail[i])
      {
        assert id[|ID_PREFIX| + i] == tail[i];
      }
    }
    assert id[..|ID_PREFIX|] == ID_PREFIX;
  }

  function Groups(a: string, b: string, c: string, d: string, e: string): string {
    a + "-" + b + "-" + c + "-" + d + "-" + e
  }

  lemma GroupsAt(a: string, b: string, c: string, d: string, e: string)
    requires |a| == 8 && |b| == |c| == |d| == 4 && |e| == 12
    ensures var s := Groups(a, b, c, d, e);
            && |s| == 36 && s[8] == s[13] == s[18] == s[23] == '-'
            && s[..8] == a && s[9..13] == b && s[14..18] == c && s[19..23] == d && s[24..] == e
  {}

  /** Exactly five groups of 8, 4, 4, 4 and 12 lower-case hexadecimal digits with hyphens between them are a
      run id. */
  lemma RunIdExactly(a: string, b: string, c: string, d: string, e: string)
    requires |a| == 8 && |b| == |c| == |d| == 4 && |e| == 12
    ensures IsRunId(Groups(a, b, c, d, e)) <==> AllHex(a) && AllHex(b) && AllHex(c) && AllHex(d) && AllHex(e)
  {
    var s := Groups(a, b, c, d, e);
    GroupsAt(a, b, c, d, e);
    PartHex(s, 0, a);
    PartHex(s, 9, b);
    PartHex(s, 14, c);
    PartHex(s, 19, d);
    PartHex(s, 24, e);
  }

  lemma PartHex(s: string, start: nat, part: string)
    requires start + |part| <= |s| && s[start..start + |part|] == part
    ensures AllHex(part) <==> forall i :: start <= i < start + |part| ==> LowerHex(s[i])
  {
    forall i | start <= i < start + |part|
      ensures s[i] == part[i - start] && (LowerHex(s[i]) <==> part[i - start] in "0123456789abcdef")
    {
      HexDigits(s[i]);
    }
    if forall i :: start <= i < start + |part| ==> LowerHex(s[i]) {
      forall k | 0 <= k < |part|
        ensures part[k] in "0123456789abcdef"
      {
        assert LowerHex(s[start + k]);
      }
    }
  }

  /** Every run id is of that form. */
  lemma RunIdSplits(s: string)
    requires IsRunId(s)
    ensures s == Groups(s[..8], s[9..13], s[14..18], s[19..23], s[24..])
  {
    assert s[8] == '-' && s[13] == '-' && s[18] == '-' && s[23] == '-';
    assert s[..9] == s[..8] + "-" && s[..14] == s[..13] + "-" && s[..19] == s[..18] + "-" && s[..24] == s[..23] + "-";
    assert s[..13] == s[..9] + s[9..13] && s[..18] == s[..14] + s[14..18] && s[..23] == s[..19] + s[19..23];
    assert s == s[..24] + s[24..];
  }

  // ----- Retry intervals -----

  ghost function Power2(n: nat): nat {
    if n == 0 then 1 else 2 * Power2(n - 1)
  }

  /** The i-th wait: the backoff doubled i times, capped. */
  ghost function Interval(s: Settings, i: nat): int {
    Min(s.backoff * Power2(i), s.backoffMax)
  }

  /** The loop of `retry_intervals`. */
  function Doubling(value: int, cap: nat, n: nat): (r: seq<int>)
    ensures |r| == n
    decreases n
  {
    if n == 0 then [] else [Min(value, cap)] + Doubling(Min(value * 2, cap), cap, n - 1)
  }

  function RetryIntervals(s: Settings, attempts: int): (r: seq<int>)
    ensures |r| == if attempts <= 1 then 0 else attempts - 1
  {
    Doubling(s.backoff, s.backoffMax, if attempts <= 1 then 0 else attempts - 1)
  }

  method ComputeRetryIntervals(s: Settings, attempts: int) returns (intervals: seq<int>)
    ensures intervals == RetryIntervals(s, attempts)
    ensures |intervals| == if attempts <= 1 then 0 else attempts - 1
    ensures forall i :: 0 <= i < |intervals| ==> intervals[i] == Interval(s, i)
  {
    intervals := [];
    var value: int := s.backoff;
    var n := if attempts <= 1 then 0 else attempts - 1;
    for i := 0 to n
      invariant value >= 0
      invariant intervals + Doubling(value, s.backoffMax, n - i) == RetryIntervals(s, attempts)
      invariant |intervals| == i
    {
      intervals := intervals + [Min(value, s.backoffMax)];
      value := Min(value * 2, s.backoffMax);
    }
    IntervalsFollowFormula(s, attempts);
  }

  lemma {:induction false} DoublingFollowsFormula(s: Settings, value: int, n: nat, i: nat, done: nat)
    requires i < n && value >= 0 && Min(value, s.backoffMax) == Interval(s, done)
    ensures Doubling(value, s.backoffMax, n)[i] == Interval(s, done + i)
    decreases i
  {
    if i > 0 {
      assert s.backoff * Power2(done + 1) == 2 * (s.backoff * Power2(done));
      DoublingFollowsFormula(s, Min(value * 2, s.backoffMax), n - 1, i - 1, done + 1);
    }
  }

  /** Interval i is min(base * 2^i, max); intervals never decrease; and a schedule with fewer attempts
      is a prefix of one with more. */
  lemma IntervalsFollowFormula(s: Settings, attempts: int)
    ensures var r := RetryIntervals(s, attempts);
            && (forall i :: 0 <= i < |r| ==> r[i] == Interval(s, i))
            && (forall i, j :: 0 <= i <= j < |r| ==> r[i] <= r[j])
            && (forall fewer :: fewer <= attempts ==> RetryIntervals(s, fewer) <= r)
  {
    var r := RetryIntervals(s, attempts);
    forall i | 0 <= i < |r|
      ensures r[i] == Interval(s, i)
    {
      DoublingFollowsFormula(s, s.backoff, |r|, i, 0);
    }
    forall i, j | 0 <= i <= j < |r|
      ensures r[i] <= r[j]
    {
      PowerGrows(i, j);
      assert s.backoff * Power2(i) <= s.backoff * Power2(j);
    }
    forall fewer | fewer <= attempts
      ensures RetryIntervals(s, fewer) <= r
    {
      var shorter := RetryIntervals(s, fewer);
      forall i | 0 <= i < |shorter|
        ensures shorter[i] == r[i]
      {
        DoublingFollowsFormula(s, s.backoff, |shorter|, i, 0);
      }
    }
  }

  lemma {:induction false} PowerGrows(i: nat, j: nat)
    requires i <= j
    ensures Power2(i) <= Power2(j)
  {
    if i < j {
      PowerGrows(i, j - 1);
    }
  }

  // ----- Writing and accepting -----

  /** What the caller expects of a stored job; the worker expects nothing in particular. */
  datatype Expected = Generic | Exact(task: Task, runId: string, jobId: string, attempts: int)

  function IntervalsOf(e: Envelope): seq<int> {
    match e.retryIntervals case Some(intervals) => intervals case None => []
  }

  predicate RetryPolicyValid(e: Envelope, s: Settings, expected: Expected) {
    var actual := IntervalsOf(e);
    match expected
    case Generic =>
      || (actual == [] && e.retriesLeft == None)
      || (&& 0 < |actual| < s.maxAttempts
          && actual == RetryIntervals(s, |actual| + 1)
          && e.retriesLeft.Some? && 0 <= e.retriesLeft.value <= |actual|)
    case Exact(_, _, _, attempts) =>
      var wanted := RetryIntervals(s, attempts);
      && actual == wanted
      && if wanted == [] then e.retriesLeft == None
         else e.retriesLeft.Some? && 0 <= e.retriesLeft.value <= |wanted|
  }

  /** `maintenance_job_is_allowlisted`, for a queue of the configured name. */
  predicate Allowlisted(e: Envelope, s: Settings, expected: Expected) {
    && e.jsonSerializer
    && RetryPolicyValid(e, s, expected)
    && e.origin == s.queueName
    && IsJobId(e.id)
    && (expected.Exact? ==> e.id == expected.jobId)
    && (exists t :: t in {DatasetCleanup, TestSetCleanup} && e.path == PathOf(t) && e.description == DescriptionOf(t)
                    && (expected.Exact? ==> t == expected.task))
    && |e.args| == 1 && IsRunId(e.args[0])
    && (expected.Exact? ==> e.args[0] == expected.runId)
    && e.kwargs == map[]
    && e.timeout == Some(s.timeout) && e.resultTtl == Some(RESULT_TTL)
    && e.failureTtl == Some(FAILURE_TTL) && e.ttl == Some(JOB_TTL)
    && e.dependencies == {} && e.dependents == {} && e.meta == map[]
    && e.unset == Nothing
  }

  /** The job `_enqueue_exact` has the queue library store. */
  function Written(s: Settings, task: Task, runId: string, jobId: string, attempts: int): Envelope {
    var intervals := RetryIntervals(s, attempts);
    Envelope(true, s.queueName, jobId, PathOf(task), DescriptionOf(task), [runId], map[],
             Some(s.timeout), Some(RESULT_TTL), Some(FAILURE_TTL), Some(JOB_TTL),
             if intervals == [] then None else Some(intervals),
             if intervals == [] then None else Some(|intervals|),
             map[], {}, {}, Nothing)
  }

  /** A retry only uses one of the retries that are left. */
  function Retried(e: Envelope): Envelope {
    if e.retriesLeft.Some? && e.retriesLeft.value > 0 then e.(retriesLeft := Some(e.retriesLeft.value - 1)) else e
  }

  function AfterRetries(e: Envelope, n: nat): Envelope {
    if n == 0 then e else Retried(AfterRetries(e, n - 1))
  }

  /** Absent and empty interval lists read the same. */
  ghost function Normal(e: Envelope): Envelope {
    e.(retryIntervals := if IntervalsOf(e) == [] then None else e.retryIntervals)
  }

  lemma {:induction false} RetriesLeftAfter(s: Settings, task: Task, runId: string, jobId: string, attempts: int, n: nat)
    ensures var w := Written(s, task, runId, jobId, attempts);
            var total := |RetryIntervals(s, attempts)|;
            AfterRetries(w, n) ==
            w.(retriesLeft := if total == 0 then None else Some(if n <= total then total - n else 0))
  {
    if n > 0 {
      RetriesLeftAfter(s, task, runId, jobId, attempts, n - 1);
    }
  }

  /** Whatever the enqueuer may write is accepted in both modes, and stays accepted through retries. */
  lemma WrittenIsAccepted(s: Settings, task: Task, runId: string, jobId: string, attempts: int, retries: nat)
    requires IsRunId(runId) && IsJobId(jobId) && 1 <= attempts <= s.maxAttempts
    ensures var e := AfterRetries(Written(s, task, runId, jobId, attempts), retries);
            Allowlisted(e, s, Generic) && Allowlisted(e, s, Exact(task, runId, jobId, attempts))
  {
    RetriesLeftAfter(s, task, runId, jobId, attempts, retries);
    assert task in {DatasetCleanup, TestSetCleanup};
  }

  /** Exact acceptance means exactly this: the stored job is what the enqueuer writes for these
      arguments, after some number of retries. */
  lemma ExactAcceptance(e: Envelope, s: Settings, task: Task, runId: string, jobId: string, attempts: int)
    requires IsRunId(runId) && IsJobId(jobId) && 1 <= attempts <= s.maxAttempts
    ensures Allowlisted(e, s, Exact(task, runId, jobId, attempts))
            <==> exists n: nat :: Normal(e) == AfterRetries(Written(s, task, runId, jobId, attempts), n)
  {
    var w := Written(s, task, runId, jobId, attempts);
    var total := |RetryIntervals(s, attempts)|;
    if Allowlisted(e, s, Exact(task, runId, jobId, attempts)) {
      var n: nat := if total == 0 then 0 else total - e.retriesLeft.value;
      RetriesLeftAfter(s, task, runId, jobId, attempts, n);
      assert e.args == [runId];
      assert Normal(e) == AfterRetries(w, n);
    }
    if n: nat :| Normal(e) == AfterRetries(w, n) {
      WrittenIsAccepted(s, task, runId, jobId, attempts, n);
      RetriesLeftAfter(s, task, runId, jobId, attempts, n);
      assert IntervalsOf(e) == IntervalsOf(Normal(e));
    }
  }

  /** What the enqueuer accepts for its arguments the worker accepts too, and so it stays through a retry. */
  lemma ExactIsKept(e: Envelope, s: Settings, task: Task, runId: string, jobId: string, attempts: int)
    requires 1 <= attempts <= s.maxAttempts && Allowlisted(e, s, Exact(task, runId, jobId, attempts))
    ensures Allowlisted(e, s, Generic) && Allowlisted(Retried(e), s, Exact(task, runId, jobId, attempts))
  {
    assert IntervalsOf(e) == RetryIntervals(s, attempts) && |IntervalsOf(e)| == attempts - 1;
    assert task in {DatasetCleanup, TestSetCleanup} && e.path == PathOf(task);
  }

  /** Generic acceptance: the job is what the enqueuer writes for some task, run and attempt count. */
  lemma GenericAcceptance(e: Envelope, s: Settings)
    requires s.maxAttempts >= 1
    ensures Allowlisted(e, s, Generic) <==>
            exists task, runId, attempts: int, n: nat ::
              IsRunId(runId) && IsJobId(e.id) && 1 <= attempts <= s.maxAttempts
              && Normal(e) == AfterRetries(Written(s, task, runId, e.id, attempts), n)
  {
    if Allowlisted(e, s, Generic) {
      var task :| task in {DatasetCleanup, TestSetCleanup} && e.path == PathOf(task) && e.description == DescriptionOf(task);
      var attempts := |IntervalsOf(e)| + 1;
      assert Allowlisted(e, s, Exact(task, e.args[0], e.id, attempts));
      ExactAcceptance(e, s, task, e.args[0], e.id, attempts);
    }
    if task, runId, attempts: int, n: nat :|
      IsRunId(runId) && IsJobId(e.id) && 1 <= attempts <= s.maxAttempts
      && Normal(e) == AfterRetries(Written(s, task, runId, e.id, attempts), n)
    {
      WrittenIsAccepted(s, task, runId, e.id, attempts, n);
      RetriesLeftAfter(s, task, runId, e.id, attempts, n);
      assert IntervalsOf(e) == IntervalsOf(Normal(e));
    }
  }
}
