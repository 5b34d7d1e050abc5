/** The fixed-window rate limiter: one counter per identity, created by the first request of a window.

    Times are read from one clock that never runs backwards. Hashing an identity into a key is a parameter, as
    is the store's rounding of a remaining lifetime to whole seconds. */
module RateLimit {
  import opened Common

  /** A counter with the time at which it disappears. */
  datatype Counter = Counter(count: nat, expiresAt: real)

  datatype Rule = Rule(name: string, requests: int, windowSeconds: int)

  datatype Decision = Decision(allowed: bool, limit: int, remaining: int, retryAfter: int)

  datatype RateError = BadRule

  // ----- One request -----

  function Live(c: Option<Counter>, now: real): bool { c.Some? && now < c.value.expiresAt }

  /** The increment script on one counter: only the first increment of a window sets the lifetime. */
  function Increment(c: Option<Counter>, now: real, window: int): Counter {
    if Live(c, now) then Counter(c.value.count + 1, c.value.expiresAt) else Counter(1, now + window as real)
  }

  class Limiter {
    var counters: map<string, Counter>
    const keyOf: (string, string) -> string
    const seconds: real -> int

    constructor (keyOf: (string, string) -> string, seconds: real -> int)
      ensures counters == map[] && this.keyOf == keyOf && this.seconds == seconds
    {
      this.counters := map[];
      this.keyOf := keyOf;
      this.seconds := seconds;
    }

    function CounterAt(key: string): Option<Counter>
      reads this
    {
      if key in counters then Some(counters[key]) else None
    }

    /** `_INCREMENT_SCRIPT`, run atomically. */
    method IncrementScript(key: string, now: real, window: int) returns (count: int, ttl: int)
      requires forall k :: k in counters ==> counters[k].count > 0
      modifies this
      ensures counters == old(counters)[key := Increment(old(CounterAt(key)), now, window)]
      ensures count == counters[key].count && ttl == seconds(counters[key].expiresAt - now)
    {
      if key in counters && now >= counters[key].expiresAt {
        counters := counters - {key};
      }
      if key in counters {
        counters := counters[key := Counter(counters[key].count + 1, counters[key].expiresAt)];
      } else {
        counters := counters[key := Counter(1, 0.0)];
      }
      count := counters[key].count;
      if count == 1 {
        counters := counters[key := Counter(1, now + window as real)];
      }
      ttl := seconds(counters[key].expiresAt - now);
    }

    /** `check`: admits a request while its window has room, and touches no other identity's counter. */
    method Check(identity: string, rule: Rule, now: real) returns (r: Result<Decision, RateError>)
      requires forall k :: k in counters ==> counters[k].count > 0
      modifies this
      ensures forall k :: k in counters ==> counters[k].count > 0
      ensures r.Err? <==> rule.requests <= 0 || rule.windowSeconds <= 0
      ensures r.Err? ==> counters == old(counters)
      ensures r.Ok? ==>
                var key := keyOf(rule.name, identity);
                && counters == old(counters)[key := Increment(old(CounterAt(key)), now, rule.windowSeconds)]
                && (r.value.allowed <==> counters[key].count <= rule.requests)
                && r.value.remaining == (if r.value.allowed then rule.requests - counters[key].count else 0)
                && r.value.limit == rule.requests
                && var left := seconds(counters[key].expiresAt - now);
                   r.value.retryAfter == (if left >= 1 then left else rule.windowSeconds)
    {
      if rule.requests <= 0 || rule.windowSeconds <= 0 {
        return Err(BadRule);
      }
      var count, ttl := IncrementScript(keyOf(rule.name, identity), now, rule.windowSeconds);
      var retryAfter := Max(1, if ttl > 0 then ttl else rule.windowSeconds);
      r := Ok(Decision(count <= rule.requests, rule.requests, Max(0, rule.requests - count), retryAfter));
    }
  }

  // ----- Whole runs of one identity -----

  predicate Ordered(times: seq<real>) { forall i, j :: 0 <= i <= j < |times| ==> times[i] <= times[j] }

  /** The counter after the first n requests. */
  function After(times: seq<real>, n: nat, window: int): Option<Counter>
    requires n <= |times|
  {
    if n == 0 then None else Some(Increment(After(times, n - 1, window), times[n - 1], window))
  }

  /** Request i is admitted: its count is within the limit. */
  predicate Allowed(times: seq<real>, i: nat, window: int, limit: nat)
    requires i < |times|
  {
    After(times, i + 1, window).value.count <= limit
  }

  /** Which request opened the window of request i: it depends on the times alone. */
  function WindowStart(times: seq<real>, i: nat, window: int): (s: nat)
    requires i < |times|
    ensures s <= i
  {
    if i == 0 then 0
    else
      var s := WindowStart(times, i - 1, window);
      if times[i] < times[s] + window as real then s else i
  }

  /** The counter says how many requests the current window has seen, and when that window ends. */
  lemma {:induction false} CounterIsPosition(times: seq<real>, i: nat, window: int)
    requires i < |times|
    ensures var s := WindowStart(times, i, window);
            After(times, i + 1, window) == Some(Counter(i - s + 1, times[s] + window as real))
  {
    if i > 0 {
      CounterIsPosition(times, i - 1, window);
    }
  }

  /** Each window admits exactly its first requests, up to the limit. */
  lemma FirstOfEachWindow(times: seq<real>, i: nat, window: int, limit: nat)
    requires i < |times|
    ensures Allowed(times, i, window, limit) <==> i < WindowStart(times, i, window) + limit
  {
    CounterIsPosition(times, i, window);
  }

  /** A request belongs to the window opened at most one window length before it; openings are a window length apart. */
  lemma {:induction false} WindowsAreApart(times: seq<real>, i: nat, j: nat, window: int)
    requires i <= j < |times| && window > 0 && Ordered(times)
    ensures WindowStart(times, i, window) <= WindowStart(times, j, window)
    ensures times[j] < times[WindowStart(times, j, window)] + window as real
    ensures WindowStart(times, j, window) == WindowStart(times, i, window)
            || (WindowStart(times, j, window) > i && times[WindowStart(times, j, window)] >= times[WindowStart(times, i, window)] + window as real)
    ensures WindowStart(times, WindowStart(times, j, window), window) == WindowStart(times, j, window)
    decreases j
  {
    if i < j {
      WindowsAreApart(times, i, j - 1, window);
    } else if j > 0 {
      WindowsAreApart(times, j - 1, j - 1, window);
    }
  }

  predicate Within(t: real, from: real, window: int) { from <= t < from + window as real }

  /** Admitted requests with a time in the span, among the first n. */
  function AdmittedIn(times: seq<real>, n: nat, window: int, limit: nat, from: real): nat
    requires n <= |times|
  {
    if n == 0 then 0
    else
      AdmittedIn(times, n - 1, window, limit, from)
      + if Within(times[n - 1], from, window) && Allowed(times, n - 1, window, limit) then 1 else 0
  }

  /** With lo the first request in the span: in its own window at most the places left from lo on, and in the one
      window that can open later in the span at most the limit. */
  predicate Bounded(times: seq<real>, n: nat, lo: nat, window: int, limit: nat, from: real)
    requires lo < n <= |times|
  {
    WithinPlaces(AdmittedIn(times, n, window, limit, from), WindowStart(times, n - 1, window),
                 WindowStart(times, lo, window), n, lo, limit)
  }

  predicate WithinPlaces(admitted: nat, s: nat, first: nat, n: nat, lo: nat, limit: nat) {
    if s == first then admitted <= Max(0, Min(n, first + limit) - lo)
    else first < lo < s && admitted <= Max(0, first + limit - lo) + Min(limit, n - s)
  }

  lemma OneMorePlace(admitted: nat, before: nat, s: nat, first: nat, n: nat, lo: nat, limit: nat)
    requires lo < n && before < n && limit > 0 && WithinPlaces(admitted, before, first, n, lo, limit)
    requires s == before || (s == n && before < lo)
    ensures WithinPlaces(admitted + if n < s + limit then 1 else 0, s, first, n + 1, lo, limit)
  {}

  lemma {:induction false} NoneBefore(times: seq<real>, n: nat, window: int, limit: nat, from: real)
    requires n <= |times| && forall i :: 0 <= i < n ==> !Within(times[i], from, window)
    ensures AdmittedIn(times, n, window, limit, from) == 0
  {
    if n > 0 {
      NoneBefore(times, n - 1, window, limit, from);
    }
  }

  /** One more request in the span. */
  lemma BoundedNext(times: seq<real>, n: nat, lo: nat, window: int, limit: nat, from: real)
    requires lo + 1 < n <= |times| && Ordered(times) && window > 0 && limit > 0
    requires Within(times[lo], from, window) && Within(times[n - 1], from, window) && Within(times[n - 2], from, window)
    requires Bounded(times, n - 1, lo, window, limit, from)
    ensures Bounded(times, n, lo, window, limit, from)
  {
    FirstOfEachWindow(times, n - 1, window, limit);
    var s, before := WindowStart(times, n - 1, window), WindowStart(times, n - 2, window);
    if s != before {
      assert s == n - 1;
      OpeningsInSpan(times, lo, before, s, window, from);
    }
    OneMorePlace(AdmittedIn(times, n - 1, window, limit, from), before, s, WindowStart(times, lo, window), n - 1, lo, limit);
  }

  lemma {:induction false} BoundedInSpan(times: seq<real>, n: nat, lo: nat, window: int, limit: nat, from: real)
    requires lo < n <= |times| && Ordered(times) && window > 0 && limit > 0
    requires forall i :: 0 <= i < lo ==> !Within(times[i], from, window)
    requires Within(times[lo], from, window) && Within(times[n - 1], from, window)
    ensures Bounded(times, n, lo, window, limit, from)
    decreases n
  {
    if n == lo + 1 {
      FirstOfEachWindow(times, n - 1, window, limit);
      NoneBefore(times, lo, window, limit, from);
    } else {
      assert times[lo] <= times[n - 2] <= times[n - 1];
      BoundedInSpan(times, n - 1, lo, window, limit, from);
      BoundedNext(times, n, lo, window, limit, from);
    }
  }

  /** Two openings do not fit into one span: if another window opens in it, the first one opened before it. */
  lemma OpeningsInSpan(times: seq<real>, lo: nat, before: nat, s: nat, window: int, from: real)
    requires before <= s < |times| && lo < s && Ordered(times) && window > 0
    requires times[s] >= times[before] + window as real
    requires Within(times[lo], from, window) && Within(times[s], from, window)
    ensures before < lo && times[before] < from
  {}

  lemma {:induction false} PastTheSpan(times: seq<real>, n: nat, hi: nat, window: int, limit: nat, from: real)
    requires hi <= n <= |times| && forall i :: hi <= i < n ==> !Within(times[i], from, window)
    ensures AdmittedIn(times, n, window, limit, from) == AdmittedIn(times, hi, window, limit, from)
  {
    if hi < n {
      PastTheSpan(times, n - 1, hi, window, limit, from);
    }
  }

  /** In any half-open span of one window length, fewer than twice the limit are admitted. */
  lemma SpanBound(times: seq<real>, window: int, limit: nat, from: real)
    requires Ordered(times) && window > 0 && limit > 0
    ensures AdmittedIn(times, |times|, window, limit, from) <= 2 * limit - 1
  {
    if exists i :: 0 <= i < |times| && Within(times[i], from, window) {
      var lo := FirstIn(times, window, from);
      var last := LastIn(times, window, from);
      assert lo <= last;
      BoundedInSpan(times, last + 1, lo, window, limit, from);
      PastTheSpan(times, |times|, last + 1, window, limit, from);
    } else {
      NoneBefore(times, |times|, window, limit, from);
    }
  }

  lemma FirstIn(times: seq<real>, window: int, from: real) returns (lo: nat)
    requires exists i :: 0 <= i < |times| && Within(times[i], from, window)
    ensures lo < |times| && Within(times[lo], from, window) && forall i :: 0 <= i < lo ==> !Within(times[i], from, window)
  {
    lo := 0;
    while !Within(times[lo], from, window)
      invariant lo < |times| && forall i :: 0 <= i < lo ==> !Within(times[i], from, window)
      decreases |times| - lo
    {
      lo := lo + 1;
    }
  }

  lemma LastIn(times: seq<real>, window: int, from: real) returns (hi: nat)
    requires exists i :: 0 <= i < |times| && Within(times[i], from, window)
    ensures hi < |times| && Within(times[hi], from, window) && forall i :: hi < i < |times| ==> !Within(times[i], from, window)
  {
    hi := |times| - 1;
    while !Within(times[hi], from, window)
      invariant hi < |times| && forall i :: hi < i < |times| ==> !Within(times[i], from, window)
      decreases hi
    {
      hi := hi - 1;
    }
  }

  // ----- The bound is reached -----

  /** One request opens a window; the rest of the limit follows late in it, and the limit again in the next. */
  function Burst(window: int, limit: nat): (times: seq<real>)
    requires window > 0
    ensures |times| == 2 * limit && Ordered(times)
  {
    seq(2 * limit, i requires 0 <= i < 2 * limit =>
      if i == 0 then 0.0 else if i < limit then window as real / 2.0 else window as real)
  }

  lemma {:induction false} BurstWindows(window: int, limit: nat, i: nat)
    requires window > 0 && i < 2 * limit
    ensures WindowStart(Burst(window, limit), i, window) == if i < limit then 0 else limit
  {
    if i > 0 {
      BurstWindows(window, limit, i - 1);
    }
  }

  lemma {:induction false} BurstAdmits(window: int, limit: nat, n: nat)
    requires window > 0 && 0 < n <= 2 * limit
    ensures AdmittedIn(Burst(window, limit), n, window, limit, window as real / 2.0) == n - 1
  {
    BurstWindows(window, limit, n - 1);
    FirstOfEachWindow(Burst(window, limit), n - 1, window, limit);
    if n > 1 {
      BurstAdmits(window, limit, n - 1);
    }
  }

  /** For every limit and window some run reaches the bound. */
  lemma SpanBoundIsTight(window: int, limit: nat)
    requires window > 0 && limit > 0
    ensures exists times, from :: Ordered(times) && AdmittedIn(times, |times|, window, limit, from) == 2 * limit - 1
  {
    BurstAdmits(window, limit, 2 * limit);
    assert Ordered(Burst(window, limit));
  }
}
