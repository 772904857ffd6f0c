/** `doRead`: bounded retries of one read against a clock. Times are nanoseconds. */
module Retry {
  import opened Wrappers

  const SECOND: nat := 1_000_000_000
  const MAX_ATTEMPTS: nat := 6
  const RETRY_BASE: nat := 1 * SECOND
  const RETRY_MAXIMUM: nat := 30 * SECOND
  const RETRY_BUDGET: nat := 90 * SECOND

  /** The Retry-After header: seconds, an HTTP date, or text that is neither. */
  datatype RetryAfter = Missing | Seconds(n: nat) | Date(at: int) | Unreadable

  /** `exhausted` is a remaining rate limit of 0; `reset` is a positive epoch in seconds. */
  datatype Headers = Headers(retryAfter: RetryAfter, exhausted: bool, reset: Option<nat>)

  datatype Response = Response(status: int, headers: Headers)

  /** What one attempt meets: an answer or a transport failure, the time it took, whether the context
      was cancelled by then, and how the wait after it would go: how far it overshoots, or when it is cut short. */
  datatype Attempt = Attempt(
    response: Option<Response>, elapsed: nat, cancelled: bool, overshoot: nat, interrupted: Option<nat>)

  /** `retryableReadResponse`, where no response counts as retryable. */
  predicate Retryable(response: Option<Response>) {
    response.None? ||
    response.value.status in {408, 429, 500, 502, 503, 504} ||
    (response.value.status == 403 && (response.value.headers.exhausted || !response.value.headers.retryAfter.Missing?))
  }

  function Until(deadline: int, now: int): nat {
    if deadline < now then 0 else deadline - now
  }

  /** `retryAfterDelay`. */
  function RetryAfterDelay(headers: Headers, now: int): Option<nat> {
    match headers.retryAfter
    case Seconds(n) => Some(n * SECOND)
    case Date(at) => Some(Until(at, now))
    case _ =>
      if headers.exhausted && headers.reset.Some? then Some(Until(headers.reset.value * SECOND, now)) else None
  }

  function Instructed(response: Option<Response>, now: int): Option<nat> {
    if response.Some? then RetryAfterDelay(response.value.headers, now) else None
  }

  function Doubled(n: nat): nat {
    if n == 0 then RETRY_BASE else 2 * Doubled(n - 1)
  }

  function Backoff(attempt: nat): (r: nat)
    requires attempt > 0
    ensures r <= RETRY_MAXIMUM
  {
    if Doubled(attempt - 1) > RETRY_MAXIMUM then RETRY_MAXIMUM else Doubled(attempt - 1)
  }

  /** `retryDelay`; the hash of path and attempt spreads the jitter over half the backoff. */
  function RetryDelay(attempt: nat, response: Option<Response>, now: int, hash: nat): (delay: nat)
    requires attempt > 0
    ensures Backoff(attempt) <= delay
    ensures Instructed(response, now).Some? ==> Instructed(response, now).value <= delay
    ensures Instructed(response, now).None? ==> 2 * delay <= 3 * Backoff(attempt)
    ensures 2 * delay <= 3 * Backoff(attempt) || Instructed(response, now) == Some(delay)
  {
    var backoff := Backoff(attempt);
    var delay := backoff + hash % (backoff / 2 + 1);
    var instructed := Instructed(response, now);
    if instructed.Some? && instructed.value > delay then instructed.value else delay
  }

  // ----- What the parts say

  /** A request timeout, too many requests and four server errors are retried; a refusal is when it is throttled,
      by an exhausted limit or a Retry-After header; no other answer is, and the lack of one always is. */
  lemma RetryableExactly(status: int, headers: Headers)
    ensures Retryable(None)
    ensures status in {408, 429, 500, 502, 503, 504} ==> Retryable(Some(Response(status, headers)))
    ensures status == 403 ==>
      (Retryable(Some(Response(status, headers))) <==> headers.exhausted || headers.retryAfter != RetryAfter.Missing)
    ensures status !in {403, 408, 429, 500, 502, 503, 504} ==> !Retryable(Some(Response(status, headers)))
  {
  }

  /** Seconds and dates of a Retry-After header come first; otherwise an exhausted limit waits for its reset. A
      moment in the past asks for no wait. */
  lemma InstructedExactly(status: int, headers: Headers, now: int)
    ensures var instructed := Instructed(Some(Response(status, headers)), now);
      match headers.retryAfter
      case Seconds(n) => instructed == Some(n * 1_000_000_000)
      case Date(at) => instructed.Some? && IsUntil(instructed.value, at, now)
      case _ =>
        if headers.exhausted && headers.reset.Some?
        then instructed.Some? && IsUntil(instructed.value, headers.reset.value * 1_000_000_000, now)
        else instructed == None
    ensures Instructed(None, now) == None
  {
  }

  predicate IsUntil(wait: int, deadline: int, now: int) {
    wait >= 0 && now + wait >= deadline && (wait == 0 || now + wait == deadline)
  }

  /** The backoffs are 1, 2, 4, 8 and 16 seconds, and 30 seconds from then on. */
  lemma BackoffExactly(attempt: nat)
    requires attempt > 0
    ensures attempt <= 5 ==> Backoff(attempt) == [1, 2, 4, 8, 16][attempt - 1] * 1_000_000_000
    ensures attempt > 5 ==> Backoff(attempt) == 30_000_000_000
  {
    assert Doubled(0) == 1_000_000_000 && Doubled(1) == 2_000_000_000 && Doubled(2) == 4_000_000_000;
    assert Doubled(3) == 8_000_000_000 && Doubled(4) == 16_000_000_000 && Doubled(5) == 32_000_000_000;
    if attempt > 5 {
      DoubledGrows(5, attempt - 1);
    }
  }

  lemma {:induction false} DoubledGrows(m: nat, n: nat)
    requires m <= n
    ensures Doubled(m) <= Doubled(n)
    decreases n
  {
    if m < n {
      DoubledGrows(m, n - 1);
    }
  }

  /** The jitter reaches every delay up to half the backoff above it: the hash decides which. */
  lemma JitterReaches(attempt: nat, now: int, delay: nat)
    requires attempt > 0 && Backoff(attempt) <= delay && 2 * delay <= 3 * Backoff(attempt)
    ensures RetryDelay(attempt, None, now, delay - Backoff(attempt)) == delay
  {
    hide Backoff;
    SmallRemainder(delay - Backoff(attempt), Backoff(attempt) / 2 + 1);
  }

  lemma SmallRemainder(n: nat, m: nat)
    requires n < m
    ensures n % m == n
  {
  }

  /** A wait: when it started, and for how long it was asked to last. */
  datatype Pause = Pause(at: int, delay: nat)

  function TotalDelay(waits: seq<Pause>): nat {
    if waits == [] then 0 else TotalDelay(waits[..|waits| - 1]) + waits[|waits| - 1].delay
  }

  lemma TotalDelayAppend(waits: seq<Pause>, w: Pause)
    ensures TotalDelay(waits + [w]) == TotalDelay(waits) + w.delay
  {
    assert (waits + [w])[..|waits|] == waits;
  }

  class Clock {
    var now: int
    var waits: seq<Pause>

    constructor (start: int)
      ensures now == start && waits == []
    {
      now, waits := start, [];
    }

    method Advance(time: nat)
      modifies `now
      ensures now == old(now) + time
    {
      now := now + time;
    }

    /** A wait whose context is cancelled ends then. */
    method CutShort(delay: nat, after: nat)
      modifies this
      ensures now == old(now) + if after < delay then after else delay
      ensures waits == old(waits) + [Pause(old(now), delay)]
    {
      waits := waits + [Pause(now, delay)];
      now := now + if after < delay then after else delay;
    }

    /** A wait lasts at least as long as asked. */
    method Wait(delay: nat, overshoot: nat)
      modifies this
      ensures now == old(now) + delay + overshoot
      ensures waits == old(waits) + [Pause(old(now), delay)]
    {
      waits := waits + [Pause(now, delay)];
      now := now + delay + overshoot;
    }
  }

  datatype ReadResult = Got(response: Response) | Failed

  /** Time spent outside waits in the first n attempts. */
  function Spent(script: seq<Attempt>, n: nat): nat
    requires n <= |script|
  {
    if n == 0 then 0 else Spent(script, n - 1) + script[n - 1].elapsed + script[n - 1].overshoot
  }

  /** Every attempt so far was retryable, and so was the wait after it. */
  predicate AllRetried(script: seq<Attempt>, n: nat)
    requires n <= |script|
  {
    forall k :: 0 <= k < n ==> Retryable(script[k].response) && !script[k].cancelled && script[k].interrupted.None?
  }

  /** Each wait obeys the backoff and the server, and ends within the budget. */
  ghost predicate WaitsObey(script: seq<Attempt>, waits: seq<Pause>, deadline: int) {
    |waits| <= |script| &&
    forall k :: 0 <= k < |waits| ==> WaitObeys(script[k].response, k + 1, waits[k], deadline)
  }

  ghost predicate WaitObeys(response: Option<Response>, attempt: nat, w: Pause, deadline: int) {
    attempt > 0 && Backoff(attempt) <= w.delay && w.at + w.delay <= deadline &&
    match Instructed(response, w.at)
    case Some(instructed) => instructed <= w.delay
    case None => 2 * w.delay <= 3 * Backoff(attempt)
  }

  // ----- A server that never answers, and never says when to come back

  /** Retryable outcomes without instruction, no interruption, and little time spent outside waits. */
  ghost predicate Patient(script: seq<Attempt>) {
    && |script| == MAX_ATTEMPTS && AllRetried(script, MAX_ATTEMPTS)
    && (forall k, now :: 0 <= k < MAX_ATTEMPTS ==> Instructed(script[k].response, now).None?)
    && 2 * Spent(script, MAX_ATTEMPTS) <= 87 * SECOND
  }

  function BackoffTotal(n: nat): nat {
    if n == 0 then 0 else BackoffTotal(n - 1) + Backoff(n)
  }

  lemma BackoffIsDoubled(attempt: nat)
    requires 1 <= attempt <= 5
    ensures Backoff(attempt) == Doubled(attempt - 1)
    ensures BackoffTotal(attempt) + RETRY_BASE == 2 * Backoff(attempt)
  {
    assert Doubled(0) == RETRY_BASE && Doubled(1) == 2 * RETRY_BASE && Doubled(2) == 4 * RETRY_BASE;
    assert Doubled(3) == 8 * RETRY_BASE && Doubled(4) == 16 * RETRY_BASE;
    if attempt > 1 {
      BackoffIsDoubled(attempt - 1);
    } else {
      assert BackoffTotal(0) == 0;
    }
  }

  lemma {:induction false} SpentGrows(script: seq<Attempt>, m: nat, n: nat)
    requires m <= n <= |script|
    ensures Spent(script, m) <= Spent(script, n)
    decreases n
  {
    if m < n {
      SpentGrows(script, m, n - 1);
    }
  }

  /** Without instructions the waits stay between the backoffs and one and a half times the backoffs. */
  lemma {:induction false} UninstructedWaits(script: seq<Attempt>, waits: seq<Pause>, deadline: int)
    requires |script| == MAX_ATTEMPTS && Patient(script) && WaitsObey(script, waits, deadline)
    ensures BackoffTotal(|waits|) <= TotalDelay(waits)
    ensures 2 * TotalDelay(waits) <= 3 * BackoffTotal(|waits|)
  {
    hide Instructed, Backoff, Patient;
    if waits != [] {
      var n := |waits|;
      UninstructedWaits(script, waits[..n - 1], deadline);
      assert WaitObeys(script[n - 1].response, n, waits[n - 1], deadline);
      PatientIsUninstructed(script, n - 1, waits[n - 1].at);
    }
  }

  lemma PatientIsUninstructed(script: seq<Attempt>, k: nat, now: int)
    requires Patient(script) && k < MAX_ATTEMPTS
    ensures Retryable(script[k].response) && !script[k].cancelled && script[k].interrupted.None?
    ensures Instructed(script[k].response, now).None?
  {
    hide Retryable, Instructed;
  }

  /** Before the sixth attempt the next wait is always affordable. */
  lemma PatientAffordsWait(script: seq<Attempt>, waits: seq<Pause>, start: int, hash: nat)
    requires |script| == MAX_ATTEMPTS && Patient(script)
    requires |waits| < 5 && WaitsObey(script, waits, start + RETRY_BUDGET)
    ensures var step := script[|waits|];
      var now := start + TotalDelay(waits) + Spent(script, |waits|) + step.elapsed;
      now + RetryDelay(|waits| + 1, step.response, now, hash) <= start + RETRY_BUDGET
  {
    hide Instructed, Backoff, RetryDelay, Patient, WaitsObey;
    var n := |waits|;
    var now := start + TotalDelay(waits) + Spent(script, n) + script[n].elapsed;
    UninstructedWaits(script, waits, start + RETRY_BUDGET);
    PatientIsUninstructed(script, n, now);
    SpentGrows(script, n + 1, MAX_ATTEMPTS);
    PatientSpends(script);
    BackoffIsDoubled(n + 1);
    BackoffIsDoubled(5);
    BackoffTotalGrows(n + 1);
  }

  lemma PatientSpends(script: seq<Attempt>)
    requires Patient(script)
    ensures 2 * Spent(script, MAX_ATTEMPTS) <= 87 * SECOND
  {
    hide Instructed, Retryable;
  }

  lemma BackoffTotalGrows(n: nat)
    requires n <= 5
    ensures BackoffTotal(n) <= BackoffTotal(5) == 31 * SECOND
    decreases 5 - n
  {
    BackoffIsDoubled(5);
    assert Doubled(0) == RETRY_BASE && Doubled(1) == 2 * RETRY_BASE && Doubled(2) == 4 * RETRY_BASE;
    assert Doubled(3) == 8 * RETRY_BASE && Doubled(4) == 16 * RETRY_BASE;
    if n < 5 {
      BackoffTotalGrows(n + 1);
    }
  }

  /** `doRead`. */
  method DoRead(clock: Clock, script: seq<Attempt>, hash: nat -> nat) returns (result: ReadResult, attempts: nat)
    requires |script| == MAX_ATTEMPTS && clock.waits == []
    modifies clock
    ensures 1 <= attempts <= 6
    ensures AllRetried(script, attempts - 1)
    ensures WaitsObey(script, clock.waits, old(clock.now) + 90_000_000_000)
    ensures attempts - 1 <= |clock.waits| <= attempts
    ensures TotalDelay(clock.waits) <= 90_000_000_000
    // an answer that is not retryable is returned
    ensures var last := script[attempts - 1];
      !Retryable(last.response) ==>
        last.response.Some? && result == Got(last.response.value) && |clock.waits| == attempts - 1
    // otherwise the last attempt was the sixth, or cancelled, or the wait after it was cut short or unaffordable
    ensures var last := script[attempts - 1];
      Retryable(last.response) && |clock.waits| == attempts - 1 ==>
        (result == if last.response.Some? then Got(last.response.value) else Failed) &&
        (attempts == 6 || last.cancelled ||
         clock.now + RetryDelay(attempts, last.response, clock.now, hash(attempts)) >
           old(clock.now) + 90_000_000_000)
    ensures |clock.waits| == attempts ==> script[attempts - 1].interrupted.Some? && result == Failed
    // a wait that is cut short takes no longer than it was cut
    ensures clock.now ==
      old(clock.now) + TotalDelay(clock.waits[..attempts - 1]) + Spent(script, attempts - 1) +
      script[attempts - 1].elapsed +
      (if |clock.waits| == attempts then
         if script[attempts - 1].interrupted.value < clock.waits[attempts - 1].delay
         then script[attempts - 1].interrupted.value else clock.waits[attempts - 1].delay
       else 0)
    // retryable answers without instruction, met without delay, are all tried
    ensures Patient(script) ==>
      attempts == 6 && 31_000_000_000 <= TotalDelay(clock.waits) && 2 * TotalDelay(clock.waits) <= 93_000_000_000
  {
    hide RetryDelay, Instructed, Backoff, Retryable, WaitObeys, TotalDelay, Patient, WaitsObey, Spent;
    var start := clock.now;
    var deadline := start + RETRY_BUDGET;
    attempts := 1;
    NoDelay(script, deadline);
    while true
      invariant 1 <= attempts <= MAX_ATTEMPTS
      invariant AllRetried(script, attempts - 1)
      invariant |clock.waits| == attempts - 1 && WaitsObey(script, clock.waits, deadline)
      invariant TotalDelay(clock.waits) <= RETRY_BUDGET
      invariant clock.waits[..attempts - 1] == clock.waits
      invariant clock.now == start + TotalDelay(clock.waits) + Spent(script, attempts - 1)
      decreases MAX_ATTEMPTS - attempts
    {
      var step := script[attempts - 1];
      PatientStep(script, clock.waits, start, hash(attempts));
      clock.Advance(step.elapsed);
      if !Retryable(step.response) {
        RefusedIsGiven(step.response);
        return Got(step.response.value), attempts;
      }
      if attempts == MAX_ATTEMPTS || step.cancelled {
        return if step.response.Some? then Got(step.response.value) else Failed, attempts;
      }
      var delay := RetryDelay(attempts, step.response, clock.now, hash(attempts));
      if clock.now + delay > deadline {
        return if step.response.Some? then Got(step.response.value) else Failed, attempts;
      }
      DelayObeys(step.response, attempts, clock.now, hash(attempts), deadline);
      OneMoreObeys(script, clock.waits, Pause(clock.now, delay), deadline);
      TotalDelayAppend(clock.waits, Pause(clock.now, delay));
      ghost var before := clock.waits;
      if step.interrupted.Some? {
        clock.CutShort(delay, step.interrupted.value);
        assert clock.waits[..attempts - 1] == before;
        return Failed, attempts;
      }
      clock.Wait(delay, step.overshoot);
      attempts := attempts + 1;
    }
  }

  lemma RefusedIsGiven(response: Option<Response>)
    requires !Retryable(response)
    ensures response.Some?
  {
  }

  lemma NoDelay(script: seq<Attempt>, deadline: int)
    ensures TotalDelay([]) == 0 && Spent(script, 0) == 0 && WaitsObey(script, [], deadline)
  {
  }

  lemma OneMoreObeys(script: seq<Attempt>, waits: seq<Pause>, w: Pause, deadline: int)
    requires WaitsObey(script, waits, deadline) && |waits| < |script|
    requires WaitObeys(script[|waits|].response, |waits| + 1, w, deadline)
    ensures WaitsObey(script, waits + [w], deadline)
    ensures Spent(script, |waits| + 1) ==
      Spent(script, |waits|) + script[|waits|].elapsed + script[|waits|].overshoot
  {
    hide WaitObeys;
  }

  /** What holds of a patient run at its next attempt. */
  lemma PatientStep(script: seq<Attempt>, waits: seq<Pause>, start: int, hash: nat)
    requires |script| == MAX_ATTEMPTS && |waits| <= 5 && WaitsObey(script, waits, start + RETRY_BUDGET)
    ensures Patient(script) ==>
      var step := script[|waits|];
      var now := start + TotalDelay(waits) + Spent(script, |waits|) + step.elapsed;
      && Retryable(step.response) && !step.cancelled && step.interrupted.None?
      && (|waits| < 5 ==> now + RetryDelay(|waits| + 1, step.response, now, hash) <= start + RETRY_BUDGET)
      && (|waits| == 5 ==> 31 * SECOND <= TotalDelay(waits) && 2 * TotalDelay(waits) <= 93 * SECOND)
  {
    hide Patient, WaitsObey, RetryDelay, Retryable, TotalDelay, Spent;
    if Patient(script) {
      PatientIsUninstructed(script, |waits|, 0);
      UninstructedWaits(script, waits, start + RETRY_BUDGET);
      BackoffTotalGrows(5);
      if |waits| < 5 {
        PatientAffordsWait(script, waits, start, hash);
      }
    }
  }

  lemma DelayObeys(response: Option<Response>, attempt: nat, now: int, hash: nat, deadline: int)
    requires attempt > 0 && now + RetryDelay(attempt, response, now, hash) <= deadline
    ensures WaitObeys(response, attempt, Pause(now, RetryDelay(attempt, response, now, hash)), deadline)
  {
    hide Instructed, Backoff;
  }
}
