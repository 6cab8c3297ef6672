/** The retry loop of one traffic request and its backoff delays. */
module TrafficRetry {
  import opened Json

  datatype AttemptOutcome = Answered(status: nat) | TimedOut | ClientAbort | NetworkError | ResponseTooLarge

  datatype Retry = Retry(
    attempts: nat, delayMs: Option<nat>, backoffFactor: real, retryOnStatuses: seq<nat>, retryOnNetworkError: bool)

  datatype Limits = Limits(maxRetryAttempts: nat, maxRetryDelayMs: nat)

  /** What `normalizeRetry` lets through. */
  predicate Normalized(r: Retry, l: Limits) {
    && 1 <= r.attempts <= l.maxRetryAttempts
    && (r.delayMs.Some? ==> r.delayMs.value <= l.maxRetryDelayMs)
    && 1.0 <= r.backoffFactor <= 10.0
  }

  predicate Retryable(r: Retry, o: AttemptOutcome) {
    match o
    case Answered(status) => status in r.retryOnStatuses
    case ResponseTooLarge => false
    case _ => r.retryOnNetworkError
  }

  // ----- backoff -----

  function Power(x: real, n: nat): real { if n == 0 then 1.0 else x * Power(x, n - 1) }

  /** `Math.round`. */
  function Round(x: real): int { (x + 0.5).Floor }

  lemma ScaledUp(p: real, f: real)
    requires p >= 0.0 && f >= 1.0
    ensures p * f >= p
  {
  }

  lemma {:induction false} PowerGrows(f: real, m: nat, n: nat)
    requires f >= 1.0 && m <= n
    ensures 1.0 <= Power(f, m) <= Power(f, n)
    decreases n
  {
    if n == 0 {
    } else {
      PowerGrows(f, if m < n then m else n - 1, n - 1);
      ScaledUp(Power(f, n - 1), f);
    }
  }

  lemma ScaledMonotone(base: real, p: real, q: real)
    requires base >= 0.0 && p <= q
    ensures base * p <= base * q
  {
  }

  lemma RoundMonotone(x: real, y: real)
    requires x <= y
    ensures Round(x) <= Round(y)
  {
  }

  /** The delay before the cap. */
  function Backoff(base: real, factor: real, completed: nat): int {
    Round(base * Power(factor, if completed > 0 then completed - 1 else 0))
  }

  lemma BackoffGrows(base: real, factor: real, m: nat, n: nat)
    requires base >= 0.0 && factor >= 1.0 && m <= n
    ensures 0 <= Backoff(base, factor, m) <= Backoff(base, factor, n)
  {
    var i, j: nat := if m > 0 then m - 1 else 0, if n > 0 then n - 1 else 0;
    var p, q := Power(factor, i), Power(factor, j);
    PowerGrows(factor, 0, i);
    PowerGrows(factor, i, j);
    ScaledMonotone(base, 0.0, p);
    ScaledMonotone(base, p, q);
    RoundMonotone(0.0, base * p);
    RoundMonotone(base * p, base * q);
  }

  function RetryDelay(r: Retry, completed: nat, maximum: nat): int {
    var delay := Backoff(match r.delayMs case Some(d) => d as real case None => 0.0, r.backoffFactor, completed);
    if delay < maximum then delay else maximum
  }

  /** Delays never shrink from one retry to the next and never exceed the limit. */
  lemma DelaysGrowAndAreCapped(r: Retry, l: Limits, m: nat, n: nat)
    requires Normalized(r, l) && m <= n
    ensures 0 <= RetryDelay(r, m, l.maxRetryDelayMs) <= RetryDelay(r, n, l.maxRetryDelayMs) <= l.maxRetryDelayMs
  {
    BackoffGrows(match r.delayMs case Some(d) => d as real case None => 0.0, r.backoffFactor, m, n);
  }

  lemma RoundExact(n: nat)
    ensures Round(n as real) == n
  {
    var x := n as real + 0.5;
    assert x.Floor as real <= x < x.Floor as real + 1.0;
  }

  /** The first wait is the configured delay up to the limit, and without a backoff
      factor so are all others. */
  lemma FirstDelay(r: Retry, d: nat, completed: nat, maximum: nat)
    requires r.delayMs == Some(d) && (completed <= 1 || r.backoffFactor == 1.0)
    ensures RetryDelay(r, completed, maximum) == if d < maximum then d else maximum
  {
    PowerOfOne(if completed > 0 then completed - 1 else 0);
    RoundExact(d);
  }

  lemma {:induction false} PowerOfOne(n: nat)
    ensures Power(1.0, n) == 1.0
  {
    if n == 0 {
    } else {
      PowerOfOne(n - 1);
    }
  }

  /** Before it is rounded, each delay is the factor times the one before. */
  lemma BackoffNext(base: real, factor: real, completed: nat)
    requires completed > 0
    ensures base * Power(factor, completed) == factor * (base * Power(factor, completed - 1))
  {
    var p := Power(factor, completed - 1);
    assert base * (factor * p) == factor * (base * p);
  }

  /** The delay before the cap is the whole number nearest to the configured delay times
      the factor to the power of the retries before. */
  lemma BackoffIsNearest(base: real, factor: real, completed: nat)
    ensures var exact := base * Power(factor, if completed > 0 then completed - 1 else 0);
            exact - 0.5 < Backoff(base, factor, completed) as real <= exact + 0.5
  {
    var exact := base * Power(factor, if completed > 0 then completed - 1 else 0);
    assert (exact + 0.5).Floor as real <= exact + 0.5 < (exact + 0.5).Floor as real + 1.0;
  }

  lemma {:induction false} WholePower(d: nat, g: nat, n: nat) returns (delay: nat)
    ensures d as real * Power(g as real, n) == delay as real
  {
    if n == 0 {
      delay := d;
    } else {
      var before := WholePower(d, g, n - 1);
      BackoffNext(d as real, g as real, n);
      delay := g * before;
      WholeProduct(g, before);
    }
  }

  lemma WholeProduct(a: nat, b: nat)
    ensures a as real * b as real == (a * b) as real
  {
  }

  lemma Capped(g: nat, delay: nat, maximum: nat)
    requires g >= 1
    ensures g * delay >= delay && g * maximum >= maximum
  {
  }

  /** A whole factor: each delay is that many times the one before, up to the limit. */
  lemma WholeDelaysMultiply(r: Retry, d: nat, g: nat, completed: nat, maximum: nat)
    requires r.delayMs == Some(d) && r.backoffFactor == g as real && g >= 1 && completed > 0
    ensures RetryDelay(r, completed + 1, maximum) ==
            var times := g * RetryDelay(r, completed, maximum); if times < maximum then times else maximum
  {
    var delay := WholePower(d, g, completed - 1);
    BackoffNext(d as real, g as real, completed);
    WholeProduct(g, delay);
    RoundExact(delay);
    RoundExact(g * delay);
    assert Backoff(d as real, g as real, completed) == delay;
    assert Backoff(d as real, g as real, completed + 1) == g * delay;
    Capped(g, delay, maximum);
  }

  // ----- the loop -----

  /** A recorded attempt, with the delay scheduled after it if it is retried. */
  datatype Attempt = Attempt(outcome: AttemptOutcome, scheduledDelay: Option<int>)

  function TotalDelay(attempts: seq<Attempt>): int {
    if attempts == [] then 0
    else
      TotalDelay(attempts[..|attempts| - 1]) +
      match attempts[|attempts| - 1].scheduledDelay case Some(d) => d case None => 0
  }

  /** What a request meets: how attempt `i` goes, with no outcome when the caller aborts
      before or during it, and whether the wait after it, or with `0` the wait before the
      first attempt, runs to its end. */
  datatype World = World(outcome: nat -> Option<AttemptOutcome>, slept: nat -> bool)

  /** Attempt `i` has an outcome that is retried, if there are attempts left. */
  predicate Retried(r: Retry, w: World, i: nat) { w.outcome(i).Some? && Retryable(r, w.outcome(i).value) }

  /** The loop gets to attempt `n`. */
  ghost predicate Gets(r: Retry, w: World, n: nat) {
    (forall i | 0 <= i < n :: w.slept(i)) && forall i | 1 <= i < n :: Retried(r, w, i)
  }

  /** `n` is the length of the shortest prefix of the outcomes that ends in one that is
      not retried or reaches the attempt limit, and nothing was cut short before. */
  ghost predicate StopsAt(r: Retry, w: World, n: nat) {
    1 <= n <= r.attempts && Gets(r, w, n) && w.outcome(n).Some? && (n == r.attempts || !Retried(r, w, n))
  }

  /** The caller aborts attempt `n`, or the wait after it. */
  ghost predicate CutAt(r: Retry, w: World, n: nat) {
    && n <= r.attempts && Gets(r, w, n)
    && ((n >= 1 && w.outcome(n).None?) || (n < r.attempts && (n >= 1 ==> Retried(r, w, n)) && !w.slept(n)))
  }

  predicate Notes(a: Attempt, w: World, n: nat, delay: Option<int>) {
    w.outcome(n).Some? && a == Attempt(w.outcome(n).value, delay)
  }

  /** The attempts recorded when attempt `i` is followed, if it is retried, by a wait of
      `delay(i)`. */
  ghost predicate Recorded(attempts: seq<Attempt>, w: World, delay: nat -> int) {
    forall i | 0 <= i < |attempts| ::
      Notes(attempts[i], w, i + 1, if i + 1 < |attempts| then Some(delay(i + 1)) else None)
  }

  /** The loop of `executeRequest`; `delay(i)` is the backoff after attempt `i`. */
  method AttemptUntilDone(r: Retry, w: World, delay: nat -> int) returns (result: Option<seq<Attempt>>)
    requires r.attempts >= 1
    ensures result.Some? ==> StopsAt(r, w, |result.value|) && Recorded(result.value, w, delay)
    ensures result.None? ==> exists n :: CutAt(r, w, n)
  {
    if !w.slept(0) {
      assert CutAt(r, w, 0);
      return None;
    }
    var attempts := [];
    var attempt := 1;
    while attempt <= r.attempts
      invariant 1 <= attempt <= r.attempts && |attempts| == attempt - 1 && Gets(r, w, attempt)
      invariant forall i | 0 <= i < |attempts| :: Notes(attempts[i], w, i + 1, Some(delay(i + 1)))
    {
      var o := w.outcome(attempt);
      if o.None? || (attempt < r.attempts && Retryable(r, o.value) && !w.slept(attempt)) {
        assert CutAt(r, w, attempt);
        return None;
      }
      if attempt < r.attempts && Retryable(r, o.value) {
        attempts := attempts + [Attempt(o.value, Some(delay(attempt)))];
        attempt := attempt + 1;
      } else {
        attempts := attempts + [Attempt(o.value, None)];
        break;
      }
    }
    result := Some(attempts);
  }

  lemma {:induction false} TotalBounded(attempts: seq<Attempt>, n: nat, maximum: nat)
    requires n <= |attempts|
    requires forall i | 0 <= i < |attempts| && attempts[i].scheduledDelay.Some? ::
               0 <= attempts[i].scheduledDelay.value <= maximum
    ensures 0 <= TotalDelay(attempts[..n]) <= n * maximum
  {
    if n == 0 {
    } else {
      TotalBounded(attempts, n - 1, maximum);
      assert attempts[..n][..n - 1] == attempts[..n - 1];
      assert n * maximum == (n - 1) * maximum + maximum;
    }
  }

  /** With the delays of `retryDelayMs`, the waits of one request add up to no more than
      the limit for each attempt but the last. */
  lemma TotalWaitBounded(r: Retry, l: Limits, attempts: seq<Attempt>, w: World)
    requires Normalized(r, l) && attempts != [] && Recorded(attempts, w, Delays(r, l))
    ensures 0 <= TotalDelay(attempts) <= (|attempts| - 1) * l.maxRetryDelayMs
  {
    forall i | 0 <= i < |attempts| && attempts[i].scheduledDelay.Some?
      ensures 0 <= attempts[i].scheduledDelay.value <= l.maxRetryDelayMs
    {
      DelaysGrowAndAreCapped(r, l, i + 1, i + 1);
      assert attempts[i].scheduledDelay.value == Delays(r, l)(i + 1);
    }
    TotalBounded(attempts, |attempts| - 1, l.maxRetryDelayMs);
  }

  function Delays(r: Retry, l: Limits): nat -> int { (completed: nat) => RetryDelay(r, completed, l.maxRetryDelayMs) }

  /** `executeRequest`: it throws exactly when the caller aborts an attempt or a wait that
      it gets to; otherwise the attempts are the shortest prefix of the outcomes that ends
      in one that is not retried or reaches the limit, with the backoff delays between. */
  method ExecuteRequest(r: Retry, l: Limits, w: World) returns (result: Option<seq<Attempt>>)
    requires Normalized(r, l)
    ensures result.None? <==> exists n :: CutAt(r, w, n)
    ensures result.Some? ==>
              var attempts := result.value;
              && StopsAt(r, w, |attempts|) && Recorded(attempts, w, Delays(r, l))
              && 0 <= TotalDelay(attempts) <= (|attempts| - 1) * l.maxRetryDelayMs
  {
    result := AttemptUntilDone(r, w, Delays(r, l));
    if result.Some? {
      TotalWaitBounded(r, l, result.value, w);
      forall n ensures !CutAt(r, w, n) { StopUnique(r, w, |result.value|, n); }
    }
  }

  /** What is retried: an answer whose status is listed and, if the request says so, what
      went wrong before there was one, but never a response that was too large. The last
      attempt before the limit is none of these. */
  lemma OnlyTransientRetried(r: Retry, w: World, attempts: seq<Attempt>, delay: nat -> int)
    requires StopsAt(r, w, |attempts|) && Recorded(attempts, w, delay)
    ensures forall i | 0 <= i < |attempts| - 1 ::
              match attempts[i].outcome
              case Answered(status) => status in r.retryOnStatuses
              case ResponseTooLarge => false
              case _ => r.retryOnNetworkError
    ensures |attempts| < r.attempts ==>
              match attempts[|attempts| - 1].outcome
              case Answered(status) => status !in r.retryOnStatuses
              case ResponseTooLarge => true
              case _ => !r.retryOnNetworkError
  {
    forall i | 0 <= i < |attempts| ensures Some(attempts[i].outcome) == w.outcome(i + 1) {
      assert Notes(attempts[i], w, i + 1, if i + 1 < |attempts| then Some(delay(i + 1)) else None);
    }
    forall i | 0 <= i < |attempts| - 1 ensures Retryable(r, attempts[i].outcome) { assert Retried(r, w, i + 1); }
  }

  /** That prefix is unique, and nothing is cut short where there is one: the recorded
      attempts are determined by the outcomes. */
  lemma StopUnique(r: Retry, w: World, m: nat, n: nat)
    requires StopsAt(r, w, m)
    ensures StopsAt(r, w, n) ==> m == n
    ensures !CutAt(r, w, n)
  {
    assert 1 <= m < n && Gets(r, w, n) ==> Retried(r, w, m);
    assert 1 <= n < m ==> Retried(r, w, n);
    assert n < m ==> w.slept(n);
  }
}
