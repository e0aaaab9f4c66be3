/** Spawning the sidecar with exponential backoff. Durations are whole milliseconds. */
module SidecarBackoff {
  import opened Basics

  const BASE_MS := 500

  function Pow2(n: nat): (r: nat)
    ensures r >= 1
  {
    if n == 0 then 1 else 2 * Pow2(n - 1)
  }

  function Min(a: nat, b: nat): nat {
    if a < b then a else b
  }

  /** The saturating 64-bit product of the code. */
  function SaturatingMul(a: nat, b: nat): nat {
    Min(a * b, U64_MAX)
  }

  /** The delay after `failures` failures in a row. */
  function Delay(failures: nat, maxDelay: nat): nat {
    Min(SaturatingMul(BASE_MS, Pow2(Min(failures, 20))), maxDelay)
  }

  class RestartPolicy {
    var consecutiveFailures: nat
    const maxDelay: nat

    constructor (maxDelay: nat)
      ensures this.maxDelay == maxDelay && consecutiveFailures == 0
    {
      this.maxDelay, consecutiveFailures := maxDelay, 0;
    }

    method NextDelay() returns (ms: nat)
      ensures ms == Delay(consecutiveFailures, maxDelay)
    {
      var shift := Min(consecutiveFailures, 20);
      var multiplier := Pow2(shift);
      ms := Min(SaturatingMul(BASE_MS, multiplier), maxDelay);
    }

    method RecordFailure() returns (ms: nat)
      modifies this`consecutiveFailures
      ensures consecutiveFailures == Bumped(old(consecutiveFailures))
      ensures ms == Delay(consecutiveFailures, maxDelay)
    {
      consecutiveFailures := Bumped(consecutiveFailures);
      ms := NextDelay();
    }

    method Reset()
      modifies this`consecutiveFailures
      ensures consecutiveFailures == 0
    {
      consecutiveFailures := 0;
    }
  }

  /** The 32-bit counter saturates. */
  function Bumped(n: nat): nat {
    if n >= U32_MAX then U32_MAX else n + 1
  }

  function BumpedBy(n: nat, k: nat): nat {
    if k == 0 then n else Bumped(BumpedBy(n, k - 1))
  }

  /** The sleeps between `k + 1` attempts when the counter starts at `failures`. */
  function Sleeps(failures: nat, maxDelay: nat, k: nat): (r: seq<nat>)
    ensures |r| == k && forall i :: 0 <= i < k ==> r[i] == Delay(BumpedBy(failures, i + 1), maxDelay)
  {
    seq(k, i requires 0 <= i < k => Delay(BumpedBy(failures, i + 1), maxDelay))
  }

  type Spawn = nat -> Result<nat, nat>

  datatype SpawnError = SpawnFailed(code: nat) | HealthTimeout

  /** Spawn attempts are an oracle: a handle, or a failure, for each. */
  method SpawnWithRetry(spawn: Spawn, policy: RestartPolicy, maxAttempts: nat)
    returns (r: Result<nat, SpawnError>, sleeps: seq<nat>)
    modifies policy`consecutiveFailures
    ensures match r
      case Ok(handle) =>
        // The first success, after sleeping once per failure; the policy starts over.
        exists k: nat :: k < maxAttempts && spawn(k) == Ok(handle) && (forall j: nat :: j < k ==> spawn(j).Err?)
          && sleeps == Sleeps(old(policy.consecutiveFailures), policy.maxDelay, k) && policy.consecutiveFailures == 0
      case Err(e) =>
        && (forall j: nat :: j < maxAttempts ==> spawn(j).Err?)
        && policy.consecutiveFailures == BumpedBy(old(policy.consecutiveFailures), maxAttempts)
        && (maxAttempts == 0 ==> e == HealthTimeout && sleeps == [])
        && (maxAttempts > 0 ==>
             && e == SpawnFailed(spawn(maxAttempts - 1).error)
             && sleeps == Sleeps(old(policy.consecutiveFailures), policy.maxDelay, maxAttempts - 1))
  {
    hide Delay;
    var lastErr: Option<SpawnError> := None;
    var nextDelay: Option<nat> := None;
    sleeps := [];
    ghost var start, cap := policy.consecutiveFailures, policy.maxDelay;
    var i := 0;
    while i < maxAttempts
      invariant 0 <= i <= maxAttempts
      invariant forall j: nat :: j < i ==> spawn(j).Err?
      invariant policy.consecutiveFailures == BumpedBy(start, i)
      invariant i == 0 ==> lastErr == None && nextDelay == None && sleeps == []
      invariant i > 0 ==>
        && lastErr == Some(SpawnFailed(spawn(i - 1).error))
        && nextDelay == Some(Delay(BumpedBy(start, i), cap))
        && sleeps == Sleeps(start, cap, i - 1)
    {
      if nextDelay.Some? {
        sleeps := sleeps + [nextDelay.value];
        nextDelay := None;
      }
      assert sleeps == Sleeps(start, cap, i);
      match spawn(i) {
        case Ok(handle) =>
          policy.Reset();
          return Ok(handle), sleeps;
        case Err(code) =>
          var ms := policy.RecordFailure();
          nextDelay := Some(ms);
          lastErr := Some(SpawnFailed(code));
      }
      i := i + 1;
    }
    r := Err(match lastErr { case Some(e) => e case None => HealthTimeout });
  }

  // ----- Bounds -----

  lemma {:induction false} Pow2Monotone(a: nat, b: nat)
    requires a <= b
    ensures Pow2(a) <= Pow2(b)
    decreases b
  {
    if a < b {
      Pow2Monotone(a, b - 1);
    }
  }

  lemma Pow2Of20()
    ensures Pow2(20) == 1048576
  {
    assert Pow2(10) == 1024 by {
      assert Pow2(5) == 32;
    }
    assert Pow2(15) == 32768;
  }

  /** The product never saturates: the shift stops at 20. */
  lemma DelayExact(failures: nat, maxDelay: nat)
    ensures BASE_MS * Pow2(Min(failures, 20)) <= U64_MAX
    ensures Delay(failures, maxDelay) == Min(BASE_MS * Pow2(Min(failures, 20)), maxDelay)
  {
    Pow2Of20();
    Pow2Monotone(Min(failures, 20), 20);
  }

  /** Delays never decrease from one failure to the next. */
  lemma DelaysClimb(failures: nat, later: nat, maxDelay: nat)
    requires failures <= later
    ensures Delay(failures, maxDelay) <= Delay(later, maxDelay)
  {
    DelayExact(failures, maxDelay);
    DelayExact(later, maxDelay);
    Pow2Monotone(Min(failures, 20), Min(later, 20));
  }

  lemma {:induction false} BumpedFromZero(k: nat)
    ensures BumpedBy(0, k) == Min(k, U32_MAX)
  {
    if k > 0 {
      BumpedFromZero(k - 1);
    }
  }

  /**
   The whole sleep of `k + 1` failing attempts of a fresh policy is the sum of the capped
   powers, and at most both `k` times the cap and 500 * (2^(k+1) - 2) milliseconds.
   */
  lemma {:induction false} TotalSleepBounded(maxDelay: nat, k: nat)
    ensures forall i :: 0 <= i < k ==>
              Sleeps(0, maxDelay, k)[i] == Min(BASE_MS * Pow2(Min(Min(i + 1, U32_MAX), 20)), maxDelay)
    ensures forall i, j :: 0 <= i < j < k ==> Sleeps(0, maxDelay, k)[i] <= Sleeps(0, maxDelay, k)[j]
    ensures Sum(Sleeps(0, maxDelay, k)) <= k * maxDelay
    ensures Sum(Sleeps(0, maxDelay, k)) <= BASE_MS * (Pow2(k + 1) - 2)
  {
    hide Delay, BumpedBy, Pow2;
    forall i: nat | i < k ensures Sleeps(0, maxDelay, k)[i] == Min(BASE_MS * Pow2(Min(Min(i + 1, U32_MAX), 20)), maxDelay) {
      BumpedFromZero(i + 1);
      DelayExact(BumpedBy(0, i + 1), maxDelay);
    }
    forall i: nat, j: nat | i < j < k ensures Sleeps(0, maxDelay, k)[i] <= Sleeps(0, maxDelay, k)[j] {
      BumpedFromZero(i + 1);
      BumpedFromZero(j + 1);
      DelaysClimb(BumpedBy(0, i + 1), BumpedBy(0, j + 1), maxDelay);
    }
    Pow2Next(k);
    if k == 0 {
      Pow2Zero();
    } else {
      TotalSleepBounded(maxDelay, k - 1);
      var ms := Sleeps(0, maxDelay, k);
      assert ms[..k - 1] == Sleeps(0, maxDelay, k - 1);
      Pow2Monotone(Min(Min(k, U32_MAX), 20), k);
      assert ms[k - 1] <= BASE_MS * Pow2(k);
      assert ms[k - 1] <= maxDelay;
      Distribute(k, maxDelay);
    }
  }

  lemma Distribute(k: nat, m: nat)
    requires k > 0
    ensures k * m == (k - 1) * m + m
  {
  }

  lemma Pow2Next(k: nat)
    ensures Pow2(k + 1) == 2 * Pow2(k)
  {
  }

  lemma Pow2Zero()
    ensures Pow2(0) == 1
  {
  }

  // ----- In numbers -----

  /** Half a second doubled per failure, up to twenty doublings and the cap. */
  lemma DelayInNumbers(failures: nat, maxDelay: nat)
    ensures failures <= 20 && 500 * Pow2(failures) <= maxDelay ==> Delay(failures, maxDelay) == 500 * Pow2(failures)
    ensures failures <= 20 && 500 * Pow2(failures) > maxDelay ==> Delay(failures, maxDelay) == maxDelay
    ensures failures >= 20 ==> Delay(failures, maxDelay) == if 524288000 <= maxDelay then 524288000 else maxDelay
  {
    DelayExact(failures, maxDelay);
    Pow2Of20();
  }

  lemma FirstDelays(maxDelay: nat)
    requires maxDelay >= 8000
    ensures Delay(1, maxDelay) == 1000 && Delay(2, maxDelay) == 2000 && Delay(3, maxDelay) == 4000 && Delay(4, maxDelay) == 8000
  {
    assert Pow2(1) == 2 && Pow2(2) == 4 && Pow2(3) == 8 && Pow2(4) == 16;
    DelayInNumbers(1, maxDelay);
    DelayInNumbers(2, maxDelay);
    DelayInNumbers(3, maxDelay);
    DelayInNumbers(4, maxDelay);
  }
}
