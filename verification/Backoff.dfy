/** Retry policies and the retry deadline (packages/outbox/src/outbox.ts). Delays are real numbers. */
module Backoff {
  import opened Common

  const MAX_SAFE_INTEGER := 0x1F_FFFF_FFFF_FFFF

  datatype RetryPolicy = RetryPolicy(maxAttempts: int, initialDelayMs: real, factor: real, maxDelayMs: int)

  predicate IsSafe(n: int) { -MAX_SAFE_INTEGER <= n <= MAX_SAFE_INTEGER }

  /** Why a configuration is refused: the attempts are not a positive safe integer, or the delays do not fit. */
  datatype Invalid = BadAttempts | BadDelays

  /** `define`: what a declared policy must meet. */
  function Define(policy: RetryPolicy): Result<RetryPolicy, Invalid> {
    if !(IsSafe(policy.maxAttempts) && policy.maxAttempts > 0) then Err(BadAttempts)
    else if policy.initialDelayMs < 0.0 || policy.factor < 1.0 || !IsSafe(policy.maxDelayMs)
            || (policy.maxDelayMs as real) < policy.initialDelayMs
    then Err(BadDelays)
    else Ok(policy)
  }

  function Pow(x: real, n: nat): real { if n == 0 then 1.0 else x * Pow(x, n - 1) }

  function MinReal(a: real, b: real): real { if a < b then a else b }

  function MinInt(a: int, b: int): int { if a < b then a else b }

  /** `Math.round` */
  function Round(x: real): int { (x + 0.5).Floor }

  function Delay(policy: RetryPolicy, attempt: nat): real
    requires attempt > 0
  {
    if policy.initialDelayMs == 0.0 then 0.0
    else MinReal(policy.maxDelayMs as real, policy.initialDelayMs * Pow(policy.factor, attempt - 1))
  }

  /** `deadline`: clamp the delay before adding, and the sum too. */
  function Deadline(policy: RetryPolicy, attempt: nat, at: int): int
    requires attempt > 0
  {
    MinInt(at + Round(Delay(policy, attempt)), MAX_SAFE_INTEGER)
  }

  // ---- Powers -----------------------------------------------------------------------------------

  lemma {:induction false} PowGrows(x: real, a: nat, b: nat)
    requires x >= 1.0 && a <= b
    ensures 1.0 <= Pow(x, a) <= Pow(x, b)
    decreases b
  {
    if b > 0 {
      if a == b { PowGrows(x, a - 1, b - 1); MulGrows(x, Pow(x, b - 1)); }
      else { PowGrows(x, a, b - 1); MulGrows(x, Pow(x, b - 1)); }
    }
  }

  lemma {:induction false} MulGrows(x: real, y: real)
    requires x >= 1.0 && y >= 1.0
    ensures x * y >= y
  {
    assert (x - 1.0) * y >= 0.0;
  }

  lemma {:induction false} ScaleGrows(c: real, x: real, y: real)
    requires c >= 0.0 && x <= y
    ensures c * x <= c * y
  {
    assert c * (y - x) >= 0.0;
  }

  /** Bernoulli's inequality. */
  lemma {:induction false} Bernoulli(x: real, n: nat)
    requires x >= 1.0
    ensures Pow(x, n) >= 1.0 + (n as real) * (x - 1.0)
  {
    if n > 0 {
      Bernoulli(x, n - 1);
      var k := (n - 1) as real;
      ScaleGrows(x, 1.0 + k * (x - 1.0), Pow(x, n - 1));
      assert x * (1.0 + k * (x - 1.0)) == 1.0 + (k + 1.0) * (x - 1.0) + k * ((x - 1.0) * (x - 1.0));
      assert (x - 1.0) * (x - 1.0) >= 0.0;
      ScaleGrows(k, 0.0, (x - 1.0) * (x - 1.0));
    }
  }

  lemma {:induction false} RoundMonotone(x: real, y: real)
    requires x <= y
    ensures Round(x) <= Round(y)
  {
  }

  lemma {:induction false} ClampGrows(cap: real, c: real, x: real, y: real)
    requires cap >= 0.0 && c >= 0.0 && 0.0 <= x <= y
    ensures 0.0 <= MinReal(cap, c * x) <= MinReal(cap, c * y) <= cap
  {
    ScaleGrows(c, x, y);
    ScaleGrows(c, 0.0, x);
  }

  lemma {:induction false} DelayGrows(policy: RetryPolicy, a: nat, b: nat)
    requires Define(policy).Ok? && 0 < a <= b
    ensures 0.0 <= Delay(policy, a) <= Delay(policy, b) <= policy.maxDelayMs as real
  {
    if policy.initialDelayMs != 0.0 {
      PowGrows(policy.factor, a - 1, b - 1);
      ClampGrows(policy.maxDelayMs as real, policy.initialDelayMs, Pow(policy.factor, a - 1), Pow(policy.factor, b - 1));
    }
  }

  /** On a fixed clock the deadline never falls as attempts grow, is never in the past and never past the cap. */
  lemma {:induction false} DeadlineMonotoneAndBounded(policy: RetryPolicy, a: nat, b: nat, at: int)
    requires Define(policy).Ok? && 0 < a <= b
    ensures Deadline(policy, a, at) <= Deadline(policy, b, at)
    ensures MinInt(at, MAX_SAFE_INTEGER) <= Deadline(policy, a, at)
    ensures Deadline(policy, b, at) <= MinInt(at + policy.maxDelayMs, MAX_SAFE_INTEGER)
  {
    DelayGrows(policy, a, b);
    RoundMonotone(Delay(policy, a), Delay(policy, b));
    RoundMonotone(0.0, Delay(policy, a));
    RoundMonotone(Delay(policy, b), policy.maxDelayMs as real);
    assert Round(policy.maxDelayMs as real) == policy.maxDelayMs;
  }

  /** Each retry waits the factor times what the one before it waited, up to the cap. */
  lemma {:induction false} DelayMultiplies(policy: RetryPolicy, attempt: nat)
    requires Define(policy).Ok? && attempt > 0
    ensures Delay(policy, attempt + 1)
         == MinReal(policy.maxDelayMs as real, policy.factor * Delay(policy, attempt))
  {
    if policy.initialDelayMs != 0.0 {
      NextDelay(policy.maxDelayMs as real, policy.factor, policy.initialDelayMs, Pow(policy.factor, attempt - 1));
    }
  }

  lemma {:induction false} NextDelay(cap: real, f: real, initial: real, power: real)
    requires f >= 1.0 && cap >= 0.0
    ensures MinReal(cap, initial * (f * power)) == MinReal(cap, f * MinReal(cap, initial * power))
  {
    Reorder(initial, f, power);
    CapsAlike(cap, f, initial * power);
  }

  lemma {:induction false} CapsAlike(cap: real, f: real, raw: real)
    requires f >= 1.0 && cap >= 0.0
    ensures MinReal(cap, f * raw) == MinReal(cap, f * MinReal(cap, raw))
  {
    if raw >= cap {
      ScaleGrows(f, cap, raw);
      ScaleGrows(cap, 1.0, f);
      assert f * cap >= cap;
    }
  }

  lemma {:induction false} Reorder(a: real, b: real, c: real)
    ensures a * (b * c) == b * (a * c)
  {
  }

  /** The deadline is the time after the delay, to the nearest millisecond, and never an unsafe number. */
  lemma {:induction false} DeadlineIsNearest(policy: RetryPolicy, attempt: nat, at: int)
    requires Define(policy).Ok? && attempt > 0
    ensures var exact, deadline := (at as real) + Delay(policy, attempt), Deadline(policy, attempt, at);
      && deadline <= MAX_SAFE_INTEGER
      && (deadline < MAX_SAFE_INTEGER ==> exact - 0.5 < deadline as real <= exact + 0.5)
      && (deadline == MAX_SAFE_INTEGER ==> exact + 0.5 >= MAX_SAFE_INTEGER as real)
  {
  }

  /** The first retry waits the initial delay. */
  lemma {:induction false} FirstDelay(policy: RetryPolicy)
    requires Define(policy).Ok?
    ensures Delay(policy, 1) == policy.initialDelayMs
  {
    assert Pow(policy.factor, 0) == 1.0;
  }

  /** How many least increments of the delay fit under the cap. */
  function Steps(initial: real, factor: real, cap: real): (q: real)
    requires initial > 0.0 && factor > 1.0 && cap >= 0.0
    ensures q >= 0.0
  {
    StepPositive(initial, factor, cap);
    cap / (initial * (factor - 1.0))
  }

  /** A number of attempts from which on the delay is the cap. */
  function CapAfter(policy: RetryPolicy): (n: nat)
    requires Define(policy).Ok? && policy.factor > 1.0 && policy.initialDelayMs > 0.0
    ensures n >= 2
  {
    Steps(policy.initialDelayMs, policy.factor, policy.maxDelayMs as real).Floor + 2
  }

  lemma {:induction false} StepPositive(initial: real, factor: real, cap: real)
    requires initial > 0.0 && factor > 1.0 && cap >= 0.0
    ensures initial * (factor - 1.0) > 0.0
    ensures cap / (initial * (factor - 1.0)) >= 0.0
  {
    var step := initial * (factor - 1.0);
    assert step > 0.0;
    assert cap / step >= 0.0;
  }

  lemma {:induction false} DivideBack(x: real, y: real)
    requires y > 0.0
    ensures y * (x / y) == x
  {
  }

  lemma {:induction false} PowerPassesCap(initial: real, factor: real, cap: real, n: nat)
    requires initial > 0.0 && factor > 1.0 && cap >= 0.0
    requires (n as real) >= Steps(initial, factor, cap)
    ensures initial * Pow(factor, n) >= cap
  {
    StepPositive(initial, factor, cap);
    var step, k := initial * (factor - 1.0), n as real;
    ScaleGrows(step, cap / step, k);
    DivideBack(cap, step);
    Bernoulli(factor, n);
    ScaleGrows(initial, 1.0 + k * (factor - 1.0), Pow(factor, n));
    Distribute(initial, k, factor - 1.0);
  }

  lemma {:induction false} Distribute(a: real, k: real, c: real)
    ensures a * (1.0 + k * c) == a + (a * c) * k
  {
  }

  lemma {:induction false} AboveFloor(q: real, n: nat)
    requires n > q.Floor
    ensures (n as real) >= q
  {
    assert q < (q.Floor + 1) as real;
  }

  /** With a growing factor and a positive delay, every attempt from a finite one on waits the cap. */
  lemma {:induction false} ReachesTheCap(policy: RetryPolicy, attempt: nat, at: int)
    requires Define(policy).Ok? && policy.factor > 1.0 && policy.initialDelayMs > 0.0
    requires attempt >= CapAfter(policy)
    ensures Deadline(policy, attempt, at) == MinInt(at + policy.maxDelayMs, MAX_SAFE_INTEGER)
  {
    var cap := policy.maxDelayMs as real;
    AboveFloor(Steps(policy.initialDelayMs, policy.factor, cap), attempt - 1);
    PowerPassesCap(policy.initialDelayMs, policy.factor, cap, attempt - 1);
    assert Delay(policy, attempt) == cap;
    assert Round(cap) == policy.maxDelayMs;
  }

  /** With factor 1 the delay never grows. */
  lemma {:induction false} ConstantBackoff(policy: RetryPolicy, attempt: nat)
    requires Define(policy).Ok? && policy.factor == 1.0 && attempt > 0
    ensures Delay(policy, attempt) == policy.initialDelayMs
  {
    PowOne(attempt - 1);
  }

  lemma {:induction false} PowOne(n: nat)
    ensures Pow(1.0, n) == 1.0
  {
    if n > 0 { PowOne(n - 1); }
  }
}
