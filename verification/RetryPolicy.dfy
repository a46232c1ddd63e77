/** The retry decision: what an upstream answer means for a delivery attempt, and how long to wait.
    Durations are nanoseconds. The random draw of the jitter and the value an out-of-range
    float-to-integer conversion happens to yield are parameters. */
module RetryPolicy {
  import opened Prelude
  import opened DeliveryState

  const MILLISECOND: int := 1_000_000
  const SECOND: int := 1_000_000_000

  /** math/rand's Float64 is k / 2^53 for a uniform k below 2^53. */
  const DRAWS: int := 0x20_0000_0000_0000

  type Draw = k: nat | k < DRAWS

  datatype Chance = Chance(draw: Draw, overflow: Int64)

  /** The Retry-After header after trimming: absent header map, blank value, a value strconv.Atoi
      accepts, a date with its distance from now, or anything else. */
  datatype RetryAfter = NoHeaders | Blank | Seconds(n: Int64) | Date(untilThen: Int64) | Unparsable

  datatype DecisionAction = ActDelivered | ActRetryWait | ActDeadLetter | ActCredentialIncident | ActConfigAnomaly

  datatype RetryOptions = RetryOptions(
    maxRetries: int, baseBackoff: Int64, maxBackoff: Int64, treatConflictAsDone: bool)

  datatype EvaluationResult = EvaluationResult(
    action: DecisionAction, nextState: DeliveryState, backoffDelay: Int64, isTerminal: bool)

  const DEFAULT_RETRY_OPTIONS := RetryOptions(3, 100 * MILLISECOND, 30 * SECOND, false)

  // ----- waiting time

  function Exponent(attempt: int): nat {
    if attempt < 1 then 0 else attempt - 1
  }

  /** A quarter of the drawn fraction of the backoff; the conversion drops the fraction towards zero. */
  function Jitter(draw: Draw, backoff: int): (j: int)
    ensures backoff >= 0 ==> 0 <= 4 * j <= backoff
    ensures backoff <= 0 ==> backoff <= 4 * j <= 0
  {
    if backoff >= 0 then QuarterDown(draw, backoff) else -QuarterDown(draw, -backoff)
  }

  function QuarterDown(draw: Draw, n: nat): (q: int)
    ensures 0 <= 4 * q <= n
  {
    ProductMonotone(draw, DRAWS, n);
    draw * n / (4 * DRAWS)
  }

  lemma ProductMonotone(a: nat, b: nat, n: nat)
    requires a <= b
    ensures a * n <= b * n
  {
  }

  /** base * 2^(attempt-1), or what the platform makes of a product out of range. */
  function Doubled(attempt: int, base: Int64, c: Chance): Int64 {
    var product := base * Pow2(Exponent(attempt));
    if FitsInt64(product) then product else c.overflow
  }

  function CapWithJitter(doubled: Int64, max: Int64, draw: Draw): Int64 {
    var backoff := if doubled > max then max else doubled;
    var total := Wrap64(backoff + Jitter(draw, backoff));
    if total > max then max else total
  }

  function CalculateBackoff(attempt: int, base: Int64, max: Int64, c: Chance): Int64 {
    CapWithJitter(Doubled(attempt, base, c), max, c.draw)
  }

  function ParseRetryAfter(header: RetryAfter, attempt: int, base: Int64, max: Int64, c: Chance): Int64 {
    match header
    case Seconds(n) =>
      if n > 0 then
        var dur := Wrap64(n * SECOND);
        if dur > max then max else dur
      else
        CalculateBackoff(attempt, base, max, c)
    case Date(untilThen) =>
      if untilThen > 0 then
        if untilThen > max then max else untilThen
      else
        CalculateBackoff(attempt, base, max, c)
    case _ => CalculateBackoff(attempt, base, max, c)
  }

  /** The exponential product is representable and 25% on top of the cap is too. */
  predicate Representable(attempt: int, base: Int64, max: Int64) {
    && FitsInt64(base * Pow2(Exponent(attempt)))
    && max + max / 4 <= MAX_INT64
  }

  /** The un-jittered wait: doubled per attempt, capped. */
  function CappedBackoff(attempt: int, base: Int64, max: Int64): int {
    Min(base * Pow2(Exponent(attempt)), max)
  }

  lemma ProductPositive(a: int, b: int)
    requires a > 0 && b > 0
    ensures a * b > 0
  {
  }

  /** Every representable wait lies between the capped exponential and 1.25 times it, never above the cap. */
  lemma BackoffEnvelope(attempt: int, base: Int64, max: Int64, c: Chance)
    requires base > 0 && max > 0 && Representable(attempt, base, max)
    ensures var r := CalculateBackoff(attempt, base, max, c);
            var low := CappedBackoff(attempt, base, max);
            0 < low <= r <= max && 4 * r <= 5 * low
  {
    ProductPositive(base, Pow2(Exponent(attempt)));
  }

  lemma BackoffPositiveForDraw(attempt: int, base: Int64, max: Int64, c: Chance)
    requires base > 0 && max > 0 && max + max / 4 <= MAX_INT64
    ensures 0 < CalculateBackoff(attempt, base, max, c) <= max
       <==> (|| FitsInt64(base * Pow2(Exponent(attempt)))
             || c.overflow > 0
             || c.overflow + Jitter(c.draw, c.overflow) < MIN_INT64)
  {
    ProductPositive(base, Pow2(Exponent(attempt)));
    CapWithJitterPositiveIff(Doubled(attempt, base, c), max, c.draw);
  }

  lemma CapWithJitterPositiveIff(doubled: Int64, max: Int64, draw: Draw)
    requires max > 0 && max + max / 4 <= MAX_INT64
    ensures 0 < CapWithJitter(doubled, max, draw) <= max
       <==> doubled > 0 || doubled + Jitter(draw, doubled) < MIN_INT64
  {
  }

  /** The doubling fits, or the platform converts a product out of range to a positive number. */
  predicate Doubles(attempt: int, base: Int64, overflow: Int64) {
    FitsInt64(base * Pow2(Exponent(attempt))) || overflow > 0
  }

  /** Whatever is drawn, the wait is a positive duration within the cap: exactly when the doubling fits or the platform
      makes a positive number of it. */
  lemma BackoffPositiveIff(attempt: int, base: Int64, max: Int64, overflow: Int64)
    requires base > 0 && max > 0 && max + max / 4 <= MAX_INT64
    ensures (forall draw: Draw :: 0 < CalculateBackoff(attempt, base, max, Chance(draw, overflow)) <= max)
       <==> Doubles(attempt, base, overflow)
  {
    forall draw: Draw | Doubles(attempt, base, overflow)
      ensures 0 < CalculateBackoff(attempt, base, max, Chance(draw, overflow)) <= max
    {
      BackoffPositiveForDraw(attempt, base, max, Chance(draw, overflow));
    }
    BackoffPositiveForDraw(attempt, base, max, Chance(0, overflow));
    NoDrawNoJitter(overflow);
  }

  lemma NoDrawNoJitter(backoff: int)
    ensures Jitter(0, backoff) == 0
  {
  }

  /** The same for a Retry-After header: whole seconds are safe unless the conversion to nanoseconds wraps to zero or
      below, a future date is always safe, anything else is a backoff. */
  lemma RetryAfterPositiveIff(header: RetryAfter, attempt: int, base: Int64, max: Int64, overflow: Int64)
    requires base > 0 && max > 0 && max + max / 4 <= MAX_INT64
    ensures (forall draw: Draw :: 0 < ParseRetryAfter(header, attempt, base, max, Chance(draw, overflow)) <= max)
       <==> (if header.Seconds? && header.n > 0 then Wrap64(header.n * SECOND) > 0
             else (header.Date? && header.untilThen > 0) || Doubles(attempt, base, overflow))
  {
    BackoffPositiveIff(attempt, base, max, overflow);
    var some := ParseRetryAfter(header, attempt, base, max, Chance(0, overflow));
    if (header.Seconds? && header.n > 0) || (header.Date? && header.untilThen > 0) {
      assert forall draw: Draw :: ParseRetryAfter(header, attempt, base, max, Chance(draw, overflow)) == some;
    } else {
      assert forall draw: Draw :: ParseRetryAfter(header, attempt, base, max, Chance(draw, overflow))
                               == CalculateBackoff(attempt, base, max, Chance(draw, overflow));
    }
  }

  lemma PowersFit(n: nat)
    requires n <= 36
    ensures Pow2(n) <= 0x10_0000_0000 && Pow2(36) == 0x10_0000_0000
  {
    assert Pow2(4) == 16;
    assert Pow2(8) == 0x100;
    assert Pow2(12) == 0x1000;
    assert Pow2(16) == 0x1_0000;
    assert Pow2(20) == 0x10_0000;
    assert Pow2(24) == 0x100_0000;
    assert Pow2(28) == 0x1000_0000;
    assert Pow2(32) == 0x1_0000_0000;
    assert Pow2(36) == 0x10_0000_0000;
    PowersGrow(n, 36);
  }

  lemma {:induction false} PowersGrow(m: nat, n: nat)
    requires m <= n
    ensures Pow2(m) <= Pow2(n)
  {
    if m < n {
      PowersGrow(m, n - 1);
    }
  }

  /** With the production options the doubling fits up to the 37th attempt ... */
  lemma DefaultsRepresentable(attempt: int)
    requires attempt <= 37
    ensures Representable(attempt, 100 * MILLISECOND, 30 * SECOND)
  {
    PowersFit(Exponent(attempt));
  }

  /** ... and from the 38th on it does not: where the platform makes the least number of it, the wait is negative. */
  lemma BackoffTurnsNegative(attempt: int)
    requires attempt >= 38
    ensures !Representable(attempt, 100 * MILLISECOND, 30 * SECOND)
    ensures CalculateBackoff(attempt, 100 * MILLISECOND, 30 * SECOND, Chance(0, MIN_INT64)) < 0
  {
    PowersFit(36);
    assert Pow2(37) == 2 * Pow2(36);
    PowersGrow(37, attempt - 1);
    NoDrawNoJitter(MIN_INT64);
  }

  /** A server may ask for a wait that turns into a negative one: 9223372037 seconds is the least such value. */
  lemma RetryAfterWraps(attempt: int, base: Int64, max: Int64, c: Chance, n: int)
    requires 0 < max
    ensures ParseRetryAfter(Seconds(9223372037), attempt, base, max, c) < 0
    ensures 0 < n < 9223372037 ==> ParseRetryAfter(Seconds(n), attempt, base, max, c) == Min(n * SECOND, max)
  {
  }

  // ----- total wait before the n-th attempt

  /** The waits computed after attempts 1 .. n-1, each with its own draw. */
  function TotalWait(n: nat, base: Int64, max: Int64, draws: nat -> Chance): int {
    if n <= 1 then 0 else TotalWait(n - 1, base, max, draws) + CalculateBackoff(n - 1, base, max, draws(n - 1))
  }

  function CappedSeries(n: nat, base: Int64, max: Int64): int {
    if n <= 1 then 0 else CappedSeries(n - 1, base, max) + CappedBackoff(n - 1, base, max)
  }

  lemma {:induction false} RepresentableBelow(attempt: nat, base: Int64, max: Int64)
    requires attempt > 1 && base > 0 && Representable(attempt, base, max)
    ensures Representable(attempt - 1, base, max)
  {
    var p := Pow2(Exponent(attempt - 1));
    ProductPositive(base, p);
    assert base * Pow2(Exponent(attempt)) == 2 * (base * p);
  }

  lemma {:induction false} TotalWaitEnvelope(n: nat, base: Int64, max: Int64, draws: nat -> Chance)
    requires base > 0 && max > 0 && (n > 1 ==> Representable(n - 1, base, max))
    ensures WaitBounds(n, max, TotalWait(n, base, max, draws), CappedSeries(n, base, max))
  {
    if n > 1 {
      if n > 2 { RepresentableBelow(n - 1, base, max); }
      TotalWaitEnvelope(n - 1, base, max, draws);
      BackoffEnvelope(n - 1, base, max, draws(n - 1));
      WaitBoundsStep(n, max, TotalWait(n - 1, base, max, draws), CappedSeries(n - 1, base, max),
                     CalculateBackoff(n - 1, base, max, draws(n - 1)), CappedBackoff(n - 1, base, max));
    }
  }

  /** A total wait before attempt n: at least the series, at most 1.25 times it, at most the cap each time. */
  predicate WaitBounds(n: nat, max: int, total: int, series: int) {
    series <= total && 4 * total <= 5 * series && total <= (if n <= 1 then 0 else n - 1) * max
  }

  lemma WaitBoundsStep(n: nat, max: int, total: int, series: int, r: int, low: int)
    requires n > 1 && WaitBounds(n - 1, max, total, series) && low <= r <= max && 4 * r <= 5 * low
    ensures WaitBounds(n, max, total + r, series + low)
  {
    assert (n - 1) * max == (n - 2) * max + max;
  }

  lemma Distribute(base: int, p: int)
    ensures base * (2 * p) == 2 * (base * p)
    ensures base * (2 * p - 1) == base * (p - 1) + base * p
  {
  }

  /** While the cap is not reached the series is the geometric one. */
  lemma {:induction false} SeriesIsGeometric(n: nat, base: Int64, max: Int64)
    requires n >= 1 && base > 0
    requires n > 1 ==> base * Pow2(n - 2) <= max
    ensures CappedSeries(n, base, max) == base * (Pow2(n - 1) - 1)
  {
    if n > 1 {
      Distribute(base, Pow2(n - 2));
      if n > 2 {
        Distribute(base, Pow2(n - 3));
        ProductPositive(base, Pow2(n - 3));
      }
      SeriesIsGeometric(n - 1, base, max);
    }
  }

  // ----- the decision

  /** MaxRetries as the decision reads it. */
  function EffectiveMax(maxRetries: int): (m: int)
    ensures m > 0
    ensures maxRetries <= 0 ==> m == 3
    ensures maxRetries > 0 ==> m == maxRetries
  {
    if maxRetries <= 0 then 3 else maxRetries
  }

  function DeadLettered(action: DecisionAction): EvaluationResult {
    EvaluationResult(action, DeadLetter, 0, true)
  }

  function RetryIn(delay: Int64): EvaluationResult {
    EvaluationResult(ActRetryWait, RetryWait, delay, false)
  }

  function EvaluateResponse(statusCode: int, networkError: bool, currentAttempt: int, header: RetryAfter,
                            opts: RetryOptions, c: Chance): EvaluationResult
  {
    var maxRetries := EffectiveMax(opts.maxRetries);
    var base: Int64 := if opts.baseBackoff <= 0 then 100 * MILLISECOND else opts.baseBackoff;
    var max: Int64 := if opts.maxBackoff <= 0 then 30 * SECOND else opts.maxBackoff;
    if networkError then
      if currentAttempt >= maxRetries then DeadLettered(ActDeadLetter)
      else RetryIn(CalculateBackoff(currentAttempt, base, max, c))
    else if 200 <= statusCode < 300 then
      EvaluationResult(ActDelivered, Delivered, 0, true)
    else if statusCode == 409 && opts.treatConflictAsDone then
      EvaluationResult(ActDelivered, Delivered, 0, true)
    else if statusCode == 429 then
      if currentAttempt >= maxRetries then DeadLettered(ActDeadLetter)
      else RetryIn(ParseRetryAfter(header, currentAttempt, base, max, c))
    else if statusCode == 408 || statusCode == 425 then
      if currentAttempt >= maxRetries then DeadLettered(ActDeadLetter)
      else RetryIn(CalculateBackoff(currentAttempt, base, max, c))
    else if statusCode == 401 || statusCode == 403 then
      DeadLettered(ActCredentialIncident)
    else if statusCode == 404 then
      DeadLettered(ActConfigAnomaly)
    else if 400 <= statusCode < 500 then
      DeadLettered(ActDeadLetter)
    else if statusCode >= 500 then
      if currentAttempt >= maxRetries then DeadLettered(ActDeadLetter)
      else RetryIn(CalculateBackoff(currentAttempt, base, max, c))
    else
      DeadLettered(ActDeadLetter)
  }

  /** What reached the upstream and was accepted there. */
  predicate Succeeds(statusCode: int, networkError: bool, conflictIsDone: bool) {
    !networkError && (statusCode / 100 == 2 || (statusCode == 409 && conflictIsDone))
  }

  /** Answers after which another attempt may help: no answer, a timeout, a rate limit, a server fault. */
  predicate Transient(statusCode: int, networkError: bool) {
    networkError || statusCode >= 500 || statusCode in {408, 425, 429}
  }

  /** The decision in one line: success delivers, a transient fault is retried while budget is left,
      everything else is final; the flag agrees with the state machine and only a retry waits. */
  lemma DecisionOutcome(statusCode: int, networkError: bool, attempt: int, header: RetryAfter,
                        opts: RetryOptions, c: Chance)
    ensures var r := EvaluateResponse(statusCode, networkError, attempt, header, opts, c);
      && r.nextState == (if Succeeds(statusCode, networkError, opts.treatConflictAsDone) then Delivered
                         else if Transient(statusCode, networkError) && attempt < EffectiveMax(opts.maxRetries)
                           then RetryWait
                         else DeadLetter)
      && r.isTerminal == IsTerminal(r.nextState)
      && CanTransition(Processing, r.nextState)
      && (!r.nextState.RetryWait? ==> r.backoffDelay == 0)
      && (r.nextState.Delivered? <==>
            !networkError && (200 <= statusCode < 300 || (statusCode == 409 && opts.treatConflictAsDone)))
      && (r.nextState.RetryWait? <==>
            && (networkError || statusCode in {408, 425, 429} || statusCode >= 500)
            && attempt < if opts.maxRetries <= 0 then 3 else opts.maxRetries)
      && (r.action.ActDelivered? <==> r.nextState.Delivered?)
      && (r.action.ActRetryWait? <==> r.nextState.RetryWait?)
      && (r.action.ActCredentialIncident? <==> !networkError && statusCode in {401, 403})
      && (r.action.ActConfigAnomaly? <==> !networkError && statusCode == 404)
  {
  }

  /** With the production options every retry waits, at most 30 seconds, as long as the doubling fits and
      a Retry-After value does not wrap. */
  lemma DefaultRetryWaits(statusCode: int, networkError: bool, attempt: int, header: RetryAfter, maxRetries: int,
                          c: Chance)
    requires Representable(attempt, 100 * MILLISECOND, 30 * SECOND)
    requires header.Seconds? && header.n > 0 ==> Wrap64(header.n * SECOND) > 0
    ensures var r := EvaluateResponse(statusCode, networkError, attempt, header,
                                      DEFAULT_RETRY_OPTIONS.(maxRetries := maxRetries), c);
            r.nextState.RetryWait? ==> 0 < r.backoffDelay <= 30 * SECOND
  {
    BackoffEnvelope(attempt, 100 * MILLISECOND, 30 * SECOND, c);
    RetryAfterPositiveIff(header, attempt, 100 * MILLISECOND, 30 * SECOND, c.overflow);
    assert Chance(c.draw, c.overflow) == c;
  }

  lemma DefaultOptionsAre()
    ensures DEFAULT_RETRY_OPTIONS == RetryOptions(3, 100_000_000, 30_000_000_000, false)
  {
  }

  /** The base and the cap the decision works with, in nanoseconds. */
  function BaseOf(opts: RetryOptions): Int64 {
    if opts.baseBackoff <= 0 then 100_000_000 else opts.baseBackoff
  }

  function CapOf(opts: RetryOptions): Int64 {
    if opts.maxBackoff <= 0 then 30_000_000_000 else opts.maxBackoff
  }

  /** How long a retry waits: a rate limit as its header asks, every other transient fault by the backoff. */
  lemma RetryDelay(statusCode: int, networkError: bool, attempt: int, header: RetryAfter, opts: RetryOptions, c: Chance)
    requires EvaluateResponse(statusCode, networkError, attempt, header, opts, c).nextState.RetryWait?
    ensures EvaluateResponse(statusCode, networkError, attempt, header, opts, c).backoffDelay
         == if !networkError && statusCode == 429 then ParseRetryAfter(header, attempt, BaseOf(opts), CapOf(opts), c)
            else CalculateBackoff(attempt, BaseOf(opts), CapOf(opts), c)
  {
  }

  /** A rate limit that names seconds, or a date ahead, within the cap is waited out to the nanosecond; beyond it, the
      cap is; without either the backoff is. */
  lemma RateLimitIsObeyed(attempt: int, header: RetryAfter, opts: RetryOptions, c: Chance)
    requires attempt < EffectiveMax(opts.maxRetries)
    ensures var r := EvaluateResponse(429, false, attempt, header, opts, c);
      && r.nextState.RetryWait?
      && (header.Seconds? && 0 < header.n < 9223372037 ==> r.backoffDelay == Min(header.n * 1_000_000_000, CapOf(opts)))
      && (header.Date? && header.untilThen > 0 ==> r.backoffDelay == Min(header.untilThen, CapOf(opts)))
      && (!(header.Seconds? && header.n > 0) && !(header.Date? && header.untilThen > 0) ==>
            r.backoffDelay == CalculateBackoff(attempt, BaseOf(opts), CapOf(opts), c))
  {
    if header.Seconds? {
      RetryAfterWraps(attempt, BaseOf(opts), CapOf(opts), c, header.n);
    }
  }

  /** The first wait is the base, each later one twice the one before, as far as the cap allows. */
  lemma BackoffDoubles(attempt: int, base: Int64, max: Int64)
    requires base > 0
    ensures attempt <= 1 ==> CappedBackoff(attempt, base, max) == Min(base, max)
    ensures attempt >= 1 && base * Pow2(attempt - 1) <= max ==>
      CappedBackoff(attempt + 1, base, max) == Min(2 * CappedBackoff(attempt, base, max), max)
  {
    if attempt >= 1 {
      Distribute(base, Pow2(attempt - 1));
    }
  }

  /** The jitter uses its whole range: nothing for the least draw, a quarter of the backoff for the greatest. */
  lemma JitterSpans(backoff: nat)
    requires backoff <= DRAWS
    ensures Jitter(0, backoff) == 0 && backoff - 4 <= 4 * Jitter(DRAWS - 1, backoff) <= backoff
  {
    assert (DRAWS - 1) * backoff == DRAWS * backoff - backoff;
  }
}
