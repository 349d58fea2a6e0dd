/** Exponential backoff with jitter for relay deliveries. */
module RetryPolicy {
  import opened Numbers

  datatype Policy = Policy(retryInitialMs: int, retryMaxMs: int, retryJitterRatio: real)

  function Pow2(n: nat): nat {
    if n == 0 then 1 else 2 * Pow2(n - 1)
  }

  function Ceiling(x: real): int {
    -(-x).Floor
  }

  function BaseDelayMs(policy: Policy, priorAttempts: int): int {
    Min(policy.retryMaxMs, policy.retryInitialMs * Pow2(Max(0, priorAttempts - 1)))
  }

  function Span(policy: Policy, priorAttempts: int): real {
    BaseDelayMs(policy, priorAttempts) as real * policy.retryJitterRatio
  }

  function LowerBound(policy: Policy, priorAttempts: int): int {
    Max(1, (BaseDelayMs(policy, priorAttempts) as real - Span(policy, priorAttempts)).Floor)
  }

  function UpperBound(policy: Policy, priorAttempts: int): int {
    Ceiling(BaseDelayMs(policy, priorAttempts) as real + Span(policy, priorAttempts))
  }

  /** `random` is the sample drawn from [0, 1). */
  function ComputeRetryDelayMs(policy: Policy, priorAttempts: int, random: real): int {
    if policy.retryJitterRatio <= 0.0 then BaseDelayMs(policy, priorAttempts)
    else
      var lower, upper := LowerBound(policy, priorAttempts), UpperBound(policy, priorAttempts);
      Min(policy.retryMaxMs, Sample(lower, upper, random).Floor)
  }

  function Sample(lower: int, upper: int, random: real): real {
    lower as real + random * (upper - lower) as real
  }

  lemma {:induction false} Pow2Grows(m: nat, n: nat)
    requires m <= n
    ensures 1 <= Pow2(m) <= Pow2(n)
    decreases n
  {
    if m < n {
      Pow2Grows(m, n - 1);
    } else if m > 0 {
      Pow2Grows(m - 1, m - 1);
    }
  }

  lemma ScaledGrows(factor: int, a: nat, b: nat)
    requires factor >= 0 && a <= b
    ensures factor * a <= factor * b
  {
  }

  /** The base delay never decreases with further attempts, stays positive, and stays at the maximum once there. */
  lemma BaseDelayGrows(policy: Policy, m: int, n: int)
    requires policy.retryInitialMs >= 1 && policy.retryMaxMs >= 1 && m <= n
    ensures 1 <= BaseDelayMs(policy, m) <= BaseDelayMs(policy, n) <= policy.retryMaxMs
    ensures BaseDelayMs(policy, m) == policy.retryMaxMs ==> BaseDelayMs(policy, n) == policy.retryMaxMs
  {
    var a, b := Max(0, m - 1), Max(0, n - 1);
    Pow2Grows(a, b);
    ScaledGrows(policy.retryInitialMs, Pow2(a), Pow2(b));
    ScaledGrows(policy.retryInitialMs, 1, Pow2(a));
  }

  /** The first two attempts wait the initial delay, and every later attempt twice as long, up to the maximum. */
  lemma BaseDelayDoubles(policy: Policy, n: int)
    requires policy.retryInitialMs >= 1 && policy.retryMaxMs >= 1
    ensures n <= 1 ==> BaseDelayMs(policy, n) == Min(policy.retryMaxMs, policy.retryInitialMs)
    ensures n >= 1 ==> BaseDelayMs(policy, n + 1) == Min(policy.retryMaxMs, 2 * BaseDelayMs(policy, n))
  {
  }

  lemma CeilingIsAbove(x: real)
    ensures Ceiling(x) as real - 1.0 < x <= Ceiling(x) as real
  {
  }

  lemma BoundsBracketBase(policy: Policy, priorAttempts: int)
    requires policy.retryInitialMs >= 1 && policy.retryMaxMs >= 1 && policy.retryJitterRatio > 0.0
    ensures 1 <= LowerBound(policy, priorAttempts) <= BaseDelayMs(policy, priorAttempts)
    ensures BaseDelayMs(policy, priorAttempts) <= UpperBound(policy, priorAttempts)
  {
    BaseDelayGrows(policy, priorAttempts, priorAttempts);
    var base, span := BaseDelayMs(policy, priorAttempts) as real, Span(policy, priorAttempts);
    assert span > 0.0;
    CeilingIsAbove(base + span);
  }

  lemma SampleStaysBetween(lower: int, upper: int, random: real)
    requires lower <= upper && 0.0 <= random < 1.0
    ensures lower <= Sample(lower, upper, random).Floor <= upper
    ensures lower < upper ==> Sample(lower, upper, random).Floor < upper
  {
    var width := (upper - lower) as real;
    assert 0.0 <= random * width;
    var sample := Sample(lower, upper, random);
    assert sample.Floor as real <= sample;
    if lower < upper {
      assert random * width < width;
      assert sample < upper as real;
      assert sample.Floor as real < upper as real;
    }
  }

  lemma CappedSampleStaysBetween(max: int, lower: int, upper: int, random: real)
    requires lower <= upper && lower <= max && 0.0 <= random < 1.0
    ensures lower <= Min(max, Sample(lower, upper, random).Floor) <= Min(max, upper)
  {
    SampleStaysBetween(lower, upper, random);
  }

  /**
   * With jitter every delay is at least the rounded-down lower end of the jitter range and at least one
   * millisecond, and at most the rounded-up upper end and the configured maximum, whatever the sample.
   */
  lemma JitteredDelayBounds(policy: Policy, priorAttempts: int, random: real)
    requires policy.retryInitialMs >= 1 && policy.retryMaxMs >= 1 && policy.retryJitterRatio > 0.0
    requires 0.0 <= random < 1.0
    ensures LowerBound(policy, priorAttempts) <= ComputeRetryDelayMs(policy, priorAttempts, random)
    ensures ComputeRetryDelayMs(policy, priorAttempts, random)
            <= Min(policy.retryMaxMs, UpperBound(policy, priorAttempts))
  {
    var lower, upper := LowerBound(policy, priorAttempts), UpperBound(policy, priorAttempts);
    assert 1 <= lower <= upper && lower <= policy.retryMaxMs by {
      BaseDelayGrows(policy, priorAttempts, priorAttempts);
      BoundsBracketBase(policy, priorAttempts);
    }
    CappedSampleStaysBetween(policy.retryMaxMs, lower, upper, random);
  }

  /** A jittered delay is within one millisecond of the range that the jitter span allows around the base delay. */
  lemma {:induction false} JitteredDelayIsNearBase(policy: Policy, priorAttempts: int, random: real)
    requires policy.retryInitialMs >= 1 && policy.retryMaxMs >= 1 && policy.retryJitterRatio > 0.0
    requires 0.0 <= random < 1.0
    ensures var base, span := BaseDelayMs(policy, priorAttempts) as real, Span(policy, priorAttempts);
            base - span - 1.0 < ComputeRetryDelayMs(policy, priorAttempts, random) as real < base + span + 1.0
  {
    JitteredDelayBounds(policy, priorAttempts, random);
    CeilingIsAbove(BaseDelayMs(policy, priorAttempts) as real + Span(policy, priorAttempts));
  }

  lemma FractionBelowOne(x: real, width: real)
    requires 0.0 <= x * width < width
    ensures 0.0 <= x < 1.0
  {
  }

  lemma SampleReaches(lower: int, upper: int, delay: int) returns (random: real)
    requires lower <= delay < upper
    ensures 0.0 <= random < 1.0 && Sample(lower, upper, random) == delay as real
  {
    random := (delay - lower) as real / (upper - lower) as real;
    assert random * (upper - lower) as real == (delay - lower) as real;
    FractionBelowOne(random, (upper - lower) as real);
  }

  lemma BelowCeiling(x: real, n: int)
    ensures n < Ceiling(x) <==> n as real < x
  {
    CeilingIsAbove(x);
  }

  lemma BaseIsBelowUpperEnd(base: int, ratio: real)
    requires base >= 1 && ratio > 0.0
    ensures base < Ceiling(base as real + base as real * ratio)
  {
    assert base as real * ratio > 0.0;
    BelowCeiling(base as real + base as real * ratio, base);
  }

  lemma DelayBelowUpperEnd(policy: Policy, priorAttempts: int, random: real)
    requires policy.retryInitialMs >= 1 && policy.retryMaxMs >= 1 && policy.retryJitterRatio > 0.0
    requires 0.0 <= random < 1.0
    ensures ComputeRetryDelayMs(policy, priorAttempts, random) < UpperBound(policy, priorAttempts)
  {
    BoundsBracketBase(policy, priorAttempts);
    BaseDelayGrows(policy, priorAttempts, priorAttempts);
    BaseIsBelowUpperEnd(BaseDelayMs(policy, priorAttempts), policy.retryJitterRatio);
    SampleStaysBetween(LowerBound(policy, priorAttempts), UpperBound(policy, priorAttempts), random);
  }

  /** Some sample gives this delay. */
  ghost predicate Occurs(policy: Policy, priorAttempts: int, delay: int) {
    exists random: real :: 0.0 <= random < 1.0 && ComputeRetryDelayMs(policy, priorAttempts, random) == delay
  }

  lemma OccurringDelayIsBounded(policy: Policy, priorAttempts: int, delay: int)
    requires policy.retryInitialMs >= 1 && policy.retryMaxMs >= 1 && policy.retryJitterRatio > 0.0
    requires Occurs(policy, priorAttempts, delay)
    ensures LowerBound(policy, priorAttempts) <= delay <= policy.retryMaxMs && delay < UpperBound(policy, priorAttempts)
  {
    var random: real :| 0.0 <= random < 1.0 && ComputeRetryDelayMs(policy, priorAttempts, random) == delay;
    JitteredDelayBounds(policy, priorAttempts, random);
    DelayBelowUpperEnd(policy, priorAttempts, random);
  }

  /** Every whole delay from the lower end up to, but not including, the upper end comes from some sample. */
  lemma EveryDelayInRangeOccurs(policy: Policy, priorAttempts: int, delay: int)
    requires policy.retryJitterRatio > 0.0
    requires LowerBound(policy, priorAttempts) <= delay <= policy.retryMaxMs && delay < UpperBound(policy, priorAttempts)
    ensures Occurs(policy, priorAttempts, delay)
  {
    var random := SampleReaches(LowerBound(policy, priorAttempts), UpperBound(policy, priorAttempts), delay);
    assert ComputeRetryDelayMs(policy, priorAttempts, random) == delay;
  }

  ghost predicate WithinBounds(policy: Policy, priorAttempts: int, delay: int) {
    LowerBound(policy, priorAttempts) <= delay <= policy.retryMaxMs && delay < UpperBound(policy, priorAttempts)
  }

  lemma OccursExactlyWithinBounds(policy: Policy, priorAttempts: int, delay: int)
    requires policy.retryInitialMs >= 1 && policy.retryMaxMs >= 1 && policy.retryJitterRatio > 0.0
    ensures Occurs(policy, priorAttempts, delay) <==> WithinBounds(policy, priorAttempts, delay)
  {
    if WithinBounds(policy, priorAttempts, delay) {
      EveryDelayInRangeOccurs(policy, priorAttempts, delay);
    }
    if Occurs(policy, priorAttempts, delay) {
      OccurringDelayIsBounded(policy, priorAttempts, delay);
    }
  }

  /** `delay` is a whole number in the range of this span around the base, at least one and at most the maximum. */
  ghost predicate InRange(base: real, span: real, max: int, delay: int) {
    Max(1, (base - span).Floor) <= delay <= max && delay as real < base + span
  }

  lemma EndsAreTheRange(base: real, span: real, max: int, delay: int)
    ensures Max(1, (base - span).Floor) <= delay <= max && delay < Ceiling(base + span) <==> InRange(base, span, max, delay)
  {
    BelowCeiling(base + span, delay);
  }

  lemma BoundsAreTheRange(policy: Policy, priorAttempts: int, delay: int)
    ensures WithinBounds(policy, priorAttempts, delay) <==>
            InRange(BaseDelayMs(policy, priorAttempts) as real, Span(policy, priorAttempts), policy.retryMaxMs, delay)
  {
    EndsAreTheRange(BaseDelayMs(policy, priorAttempts) as real, Span(policy, priorAttempts), policy.retryMaxMs, delay);
  }

  lemma SpanIsShareOfBase(policy: Policy, priorAttempts: int)
    ensures Span(policy, priorAttempts) == BaseDelayMs(policy, priorAttempts) as real * policy.retryJitterRatio
  {
  }

  /**
   * The delays that occur with jitter are exactly the whole numbers from the rounded-down lower end of the jitter range,
   * but at least one, to below its upper end, and up to the configured maximum.
   */
  lemma DelaysAreExactlyTheRange(policy: Policy, priorAttempts: int, delay: int)
    requires policy.retryInitialMs >= 1 && policy.retryMaxMs >= 1 && policy.retryJitterRatio > 0.0
    ensures Occurs(policy, priorAttempts, delay) <==>
            InRange(BaseDelayMs(policy, priorAttempts) as real,
                    BaseDelayMs(policy, priorAttempts) as real * policy.retryJitterRatio, policy.retryMaxMs, delay)
  {
    OccursExactlyWithinBounds(policy, priorAttempts, delay);
    BoundsAreTheRange(policy, priorAttempts, delay);
    SpanIsShareOfBase(policy, priorAttempts);
  }

  /** Every delay is positive and within the maximum, so a retry is always later than now; without jitter it is the base. */
  lemma DelayIsPositive(policy: Policy, priorAttempts: int, random: real)
    requires policy.retryInitialMs >= 1 && policy.retryMaxMs >= 1 && 0.0 <= random < 1.0
    ensures 1 <= ComputeRetryDelayMs(policy, priorAttempts, random) <= policy.retryMaxMs
    ensures policy.retryJitterRatio <= 0.0 ==>
              ComputeRetryDelayMs(policy, priorAttempts, random) == BaseDelayMs(policy, priorAttempts)
  {
    BaseDelayGrows(policy, priorAttempts, priorAttempts);
    if policy.retryJitterRatio > 0.0 {
      JitteredDelayBounds(policy, priorAttempts, random);
    }
  }

  ghost predicate LowerBoundHolds(policy: Policy, priorAttempts: int) {
    forall random: real :: 0.0 <= random < 1.0 ==>
      LowerBound(policy, priorAttempts) <= ComputeRetryDelayMs(policy, priorAttempts, random)
  }

  lemma NonPositiveBase(policy: Policy, priorAttempts: int)
    requires policy.retryInitialMs < 1 && policy.retryJitterRatio > 0.0
    ensures UpperBound(policy, priorAttempts) <= 0
  {
    Pow2Grows(0, Max(0, priorAttempts - 1));
    var power := Pow2(Max(0, priorAttempts - 1));
    assert policy.retryInitialMs * power <= 0;
    var base, ratio := BaseDelayMs(policy, priorAttempts) as real, policy.retryJitterRatio;
    assert base * ratio <= 0.0;
  }

  /** With jitter every sample respects the lower bound exactly when both configured delays are at least one. */
  lemma LowerBoundHoldsExactlyForPositiveDelays(policy: Policy, priorAttempts: int)
    requires policy.retryJitterRatio > 0.0
    ensures LowerBoundHolds(policy, priorAttempts) <==> policy.retryInitialMs >= 1 && policy.retryMaxMs >= 1
  {
    if policy.retryInitialMs >= 1 && policy.retryMaxMs >= 1 {
      forall random: real | 0.0 <= random < 1.0
        ensures LowerBound(policy, priorAttempts) <= ComputeRetryDelayMs(policy, priorAttempts, random)
      {
        JitteredDelayBounds(policy, priorAttempts, random);
      }
    } else {
      var lower, upper := LowerBound(policy, priorAttempts), UpperBound(policy, priorAttempts);
      if policy.retryMaxMs >= 1 {
        NonPositiveBase(policy, priorAttempts);
        MiddleSampleFalls(lower, upper);
      }
      assert ComputeRetryDelayMs(policy, priorAttempts, 0.5) < lower;
    }
  }

  lemma MiddleSampleFalls(lower: int, upper: int)
    requires upper < lower
    ensures Sample(lower, upper, 0.5).Floor < lower
  {
    assert Sample(lower, upper, 0.5) < lower as real;
  }
}
