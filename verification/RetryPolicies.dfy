/** When a failed job is tried again, and when it is given up (internal/worker/policy.go). */
module RetryPolicies {
  import opened Core

  datatype JobStatus = Pending | Running | Retry | Delivered | Failed

  datatype RetryPolicy = RetryPolicy(
    maximumAttempts: int,
    initialBackoff: Duration,
    maximumBackoff: Duration,
    lockTimeout: Duration,
    jitterFraction: real)
  {
    predicate Valid() {
      && 1 <= maximumAttempts <= 100
      && 0 < initialBackoff <= maximumBackoff
      && lockTimeout > 0
      && 0.0 <= jitterFraction <= 0.5
    }

    /** An invalid policy is replaced by the default one. */
    function Effective(): (p: RetryPolicy)
      ensures p.Valid()
    {
      if Valid() then this else DEFAULT_POLICY
    }

    function StatusAfterFailure(attempt: int): JobStatus {
      if attempt >= maximumAttempts then Failed else Retry
    }
  }

  const SECOND: Duration := 1_000_000_000
  const DEFAULT_POLICY := RetryPolicy(8, 2 * SECOND, 5 * MINUTE, 2 * MINUTE, 0.0)

  function Pow2(n: nat): nat {
    if n == 0 then 1 else 2 * Pow2(n - 1)
  }

  /** The backoff before jitter: doubled per attempt, capped. */
  function Base(p: RetryPolicy, attempt: int): Duration {
    var exponent := Min(Max(attempt, 1) - 1, 30);
    Min(p.initialBackoff * Pow2(exponent), p.maximumBackoff)
  }

  /** The backoff in exact arithmetic; entropy 0.5 means no jitter. */
  function Backoff(policy: RetryPolicy, attempt: int, entropy: real): Duration {
    var p := policy.Effective();
    var base := Base(p, attempt) as real;
    var e := if entropy < 0.0 then 0.0 else if entropy > 1.0 then 1.0 else entropy;
    (base + (e * 2.0 - 1.0) * (base * p.jitterFraction)).Floor
  }

  lemma {:induction false} Pow2Monotone(m: nat, n: nat)
    requires m <= n
    ensures 1 <= Pow2(m) <= Pow2(n)
    decreases n
  {
    if m < n {
      Pow2Monotone(m, n - 1);
    } else if n > 0 {
      Pow2Monotone(m - 1, n - 1);
    }
  }

  lemma BaseMonotone(p: RetryPolicy, a: int, b: int)
    requires p.Valid() && a <= b
    ensures p.initialBackoff <= Base(p, a) <= Base(p, b) <= p.maximumBackoff
  {
    var m, n := Min(Max(a, 1) - 1, 30), Min(Max(b, 1) - 1, 30);
    Pow2Monotone(m, n);
    Pow2Monotone(0, m);
    Scale(p.initialBackoff, 1, Pow2(m));
    Scale(p.initialBackoff, Pow2(m), Pow2(n));
  }

  lemma Scale(x: int, m: int, n: int)
    requires 0 <= x && m <= n
    ensures x * m <= x * n
  {
    assert x * n == x * m + x * (n - m);
  }

  /** The worker always passes entropy one half, for which the jitter cancels out: its
      delays double from the initial backoff up to the cap and never shrink. */
  lemma WorkerBackoff(policy: RetryPolicy, a: int, b: int)
    requires a <= b
    ensures
      var p := policy.Effective();
      && Backoff(policy, a, 0.5) == Base(p, a)
      && p.initialBackoff <= Backoff(policy, a, 0.5) <= Backoff(policy, b, 0.5) <= p.maximumBackoff
  {
    var p := policy.Effective();
    BaseMonotone(p, a, b);
    NoJitter(Base(p, a), p.jitterFraction);
    NoJitter(Base(p, b), p.jitterFraction);
  }

  lemma NoJitter(base: Duration, jitter: real)
    ensures (base as real + (0.5 * 2.0 - 1.0) * (base as real * jitter)).Floor == base
  {
    assert 0.5 * 2.0 - 1.0 == 0.0;
  }

  /** The delays written out step by step: the first is the initial backoff, each further
      one up to the 31st twice the one before unless the cap is reached, and from then on
      they stay. */
  lemma BaseDoubles(p: RetryPolicy, a: int)
    requires p.Valid()
    ensures a <= 1 ==> Base(p, a) == p.initialBackoff
    ensures 1 <= a < 31 ==>
      Base(p, a + 1) == if 2 * Base(p, a) <= p.maximumBackoff then 2 * Base(p, a) else p.maximumBackoff
    ensures 31 <= a ==> Base(p, a + 1) == Base(p, a)
  {
    if 1 <= a < 31 {
      var x, n := p.initialBackoff, Pow2(a - 1);
      Pow2Monotone(0, a - 1);
      assert Pow2(a) == 2 * n;
      assert x * (2 * n) == 2 * (x * n);
    }
  }

  /** Which policies are used as given, and the one used instead of the others. */
  lemma EffectiveTells(p: RetryPolicy)
    ensures
      p.Effective() ==
      if && 1 <= p.maximumAttempts <= 100 && p.initialBackoff > 0 && p.initialBackoff <= p.maximumBackoff
         && p.lockTimeout > 0 && 0.0 <= p.jitterFraction && p.jitterFraction <= 0.5
      then p
      else RetryPolicy(8, 2_000_000_000, 300_000_000_000, 120_000_000_000, 0.0)
  {
    assert DEFAULT_POLICY.maximumBackoff == 300_000_000_000;
  }
}
