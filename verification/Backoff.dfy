/** Retry delays (src/scheduler.rs `retry_or_dead_letter` and `deterministic_jitter`, and the SQL
    expression of src/store.rs), in saturating 64-bit arithmetic. */
module Backoff {
  import opened Prelude
  import opened Divisors
  import opened Domain

  datatype SchedulerConfig = SchedulerConfig(
    maxDags: U64,
    maxReadyJobs: U64,
    maxLeaseMs: I64,
    baseRetryMs: I64,
    maxRetryMs: I64)

  const DEFAULT_CONFIG := SchedulerConfig(100, 10_000, 60_000, 1_000, 60_000)

  function Pow2(e: nat): (p: nat)
    ensures p >= 1
  {
    if e == 0 then 1 else 2 * Pow2(e - 1)
  }

  /** The exponent `attempts.saturating_sub(1).min(16)`. */
  function Exponent(attempts: nat): (e: nat)
    ensures e <= 16
  {
    if attempts == 0 then 0 else Min(attempts - 1, 16)
  }

  /** The wrapping byte hash of a job id. */
  function JobHash(id: string): U64 {
    if id == [] then 0 else (JobHash(id[..|id| - 1]) * 31 + id[|id| - 1] as int) % (U64_MAX + 1)
  }

  function Pow31(n: nat): nat {
    if n == 0 then 1 else 31 * Pow31(n - 1)
  }

  /** The bytes as the digits of a number to base 31, first byte first. */
  function Base31(id: string): nat {
    if id == [] then 0 else id[0] as int * Pow31(|id| - 1) + Base31(id[1..])
  }

  /** The hash is that number, modulo 2^64. */
  lemma {:induction false} JobHashIs(id: string)
    ensures JobHash(id) == Base31(id) % 0x1_0000_0000_0000_0000
  {
    if id != [] {
      var head, last := id[..|id| - 1], id[|id| - 1] as int;
      assert id == head + [id[|id| - 1]];
      JobHashIs(head);
      Base31Snoc(head, id[|id| - 1]);
      WrapEarly(Base31(head), last, U64_MAX + 1);
    }
  }

  lemma {:induction false} Base31Snoc(id: string, c: char)
    ensures Base31(id + [c]) == 31 * Base31(id) + c as int
  {
    if id == [] {
      assert id + [c] == [c];
      assert Base31([c][1..]) == 0;
    } else {
      assert (id + [c])[1..] == id[1..] + [c] && (id + [c])[0] == id[0];
      Base31Snoc(id[1..], c);
      Regroup(id[0] as int, 31, Pow31(|id| - 1));
      Distribute(31, id[0] as int * Pow31(|id| - 1), Base31(id[1..]));
      Regroup(31, id[0] as int, Pow31(|id| - 1));
    }
  }

  /** Reducing before the next digit is as good as reducing after it. */
  lemma WrapEarly(x: nat, c: nat, m: nat)
    requires m > 0
    ensures ((x % m) * 31 + c) % m == (31 * x + c) % m
  {
    DivisionSteps(x, m);
    DivisionSteps((x % m) * 31 + c, m);
    WrapStep(m, x / m, x % m, x, c, ((x % m) * 31 + c) / m, ((x % m) * 31 + c) % m);
  }

  lemma WrapStep(m: nat, q: nat, r: nat, x: nat, c: nat, p: nat, s: nat)
    requires x == m * q + r && r * 31 + c == m * p + s && s < m
    ensures (31 * x + c) % m == s
  {
    Regroup(m, q, 31);
    Distribute(m, q * 31, p);
    DivMod(31 * x + c, m, q * 31 + p, s);
  }

  function DeterministicJitter(jobId: string, ceiling: I64): I64 {
    if ceiling <= 0 then 0 else
      assert 0 <= JobHash(jobId) % ceiling < ceiling;
      JobHash(jobId) % ceiling
  }

  lemma {:induction false} ShiftFits(e: nat)
    requires e <= 16
    ensures Pow2(e) <= 65536
  {
    assert Pow2(4) == 16;
    assert Pow2(8) == 256;
    assert Pow2(12) == 4096;
    assert Pow2(16) == 65536;
    Pow2Monotone(e, 16);
  }

  lemma {:induction false} Pow2Monotone(a: nat, b: nat)
    requires a <= b
    ensures Pow2(a) <= Pow2(b)
    decreases b
  {
    if a < b {
      Pow2Monotone(a, b - 1);
    }
  }

  /** The delay before jitter. */
  function Bounded(config: SchedulerConfig, attempts: nat): I64 {
    ShiftFits(Exponent(attempts));
    Min(SatMul(config.baseRetryMs, Pow2(Exponent(attempts))), config.maxRetryMs)
  }

  function JitterOf(config: SchedulerConfig, jobId: string, attempts: nat): I64 {
    DeterministicJitter(jobId, TruncDiv(Bounded(config, attempts), 5))
  }

  /** When a job that failed its `attempts`-th attempt at `now` becomes available again. */
  function RetryAt(config: SchedulerConfig, jobId: string, attempts: nat, now: I64): I64 {
    SatAdd(SatAdd(now, Bounded(config, attempts)), JitterOf(config, jobId, attempts))
  }

  function Delay(config: SchedulerConfig, jobId: string, attempts: nat): int {
    Bounded(config, attempts) + JitterOf(config, jobId, attempts)
  }

  ghost predicate PositiveConfig(config: SchedulerConfig) {
    config.baseRetryMs > 0 && config.maxRetryMs > 0
  }

  /** For a positive configuration saturation never shows: the delay is the documented exponential. */
  lemma BoundedExact(config: SchedulerConfig, attempts: nat)
    requires PositiveConfig(config) && attempts >= 1
    ensures Bounded(config, attempts) == Min(config.maxRetryMs, config.baseRetryMs * Pow2(Min(attempts - 1, 16)))
    ensures Bounded(config, attempts) > 0
  {
    var p := Pow2(Exponent(attempts));
    ShiftFits(Exponent(attempts));
    MulLe(config.baseRetryMs, 1, p);
    CapAbsorbsSaturation(config.baseRetryMs * p, config.maxRetryMs);
  }

  lemma CapAbsorbsSaturation(x: int, cap: I64)
    requires x > 0
    ensures Min(ClampI64(x), cap) == Min(x, cap)
  {
  }

  lemma BoundedMonotone(config: SchedulerConfig, a: nat, b: nat)
    requires PositiveConfig(config) && 1 <= a <= b
    ensures Bounded(config, a) <= Bounded(config, b)
  {
    BoundedExact(config, a);
    BoundedExact(config, b);
    Pow2Monotone(Min(a - 1, 16), Min(b - 1, 16));
    MulLe(config.baseRetryMs, Pow2(Min(a - 1, 16)), Pow2(Min(b - 1, 16)));
  }

  /** Jitter stays below a fifth of the delay and is zero when that fifth is not positive. */
  lemma JitterRange(config: SchedulerConfig, jobId: string, attempts: nat)
    ensures var fifth := TruncDiv(Bounded(config, attempts), 5);
            if fifth > 0 then 0 <= JitterOf(config, jobId, attempts) < fifth
            else JitterOf(config, jobId, attempts) == 0
  {
  }

  /** For a positive configuration the two saturating additions act as one. */
  lemma RetryAtExact(config: SchedulerConfig, jobId: string, attempts: nat, now: I64)
    requires PositiveConfig(config) && attempts >= 1
    ensures RetryAt(config, jobId, attempts, now) == Min(I64_MAX, now + Delay(config, jobId, attempts))
    ensures RetryAt(config, jobId, attempts, now) > now || now == I64_MAX
  {
    BoundedExact(config, attempts);
    JitterRange(config, jobId, attempts);
  }

  // ----- When the whole delay never shrinks -----

  /** Between two delays before jitter, no hash can make the whole delay shorter: the largest possible drop
      of the jitter, a fifth less its common divisor with the next fifth, is made up for. */
  predicate NeverShorter(now: int, next: int) {
    var f1, f2 := now / 5, next / 5;
    f1 <= 0 || f2 <= 0 || f1 - Gcd(f1, f2) <= next - now
  }

  /** All pairs of remainders by the two fifths occur among the 64-bit hashes. */
  predicate HashesReach(now: int, next: int) {
    var f1, f2 := now / 5, next / 5;
    f1 <= 0 || f2 <= 0 || f1 * f2 <= (U64_MAX + 1) * Gcd(f1, f2)
  }

  function HashJitter(hash: nat, delay: int): nat {
    if delay / 5 <= 0 then 0 else hash % (delay / 5)
  }

  lemma DelayOfHash(config: SchedulerConfig, jobId: string, attempts: nat)
    requires PositiveConfig(config) && attempts >= 1
    ensures Bounded(config, attempts) > 0
    ensures Delay(config, jobId, attempts) ==
            Bounded(config, attempts) + HashJitter(JobHash(jobId), Bounded(config, attempts))
  {
    BoundedExact(config, attempts);
    hide Bounded, JobHash;
  }

  /** Every hash is the hash of some byte string. */
  lemma {:induction false} IdOfHash(hash: U64) returns (jobId: string)
    ensures JobHash(jobId) == hash
    decreases hash
  {
    if hash == 0 {
      jobId := [];
    } else {
      var head := IdOfHash(hash / 31);
      jobId := head + [(hash % 31) as char];
      assert jobId[..|jobId| - 1] == head;
    }
  }

  /** What the hashes can do between two delays. */
  lemma HashStep(now: int, next: int)
    requires 0 < now <= next
    ensures NeverShorter(now, next) ==>
              forall hash: nat :: now + HashJitter(hash, now) <= next + HashJitter(hash, next)
    ensures HashesReach(now, next) && !NeverShorter(now, next) ==>
              exists hash: U64 :: now + HashJitter(hash, now) > next + HashJitter(hash, next)
  {
    var f1, f2 := now / 5, next / 5;
    if f1 > 0 {
      hide Gcd;
      forall hash: nat | NeverShorter(now, next)
        ensures now + HashJitter(hash, now) <= next + HashJitter(hash, next)
      {
        RemainderGap(hash, f1, f2);
      }
      var h := WidestGap(f1, f2);
      if HashesReach(now, next) && !NeverShorter(now, next) {
        CancelFactor(Gcd(f1, f2), h + 1, U64_MAX + 1);
        var hash: U64 := h;
        assert now + HashJitter(hash, now) > next + HashJitter(hash, next);
      }
    }
  }

  lemma CancelFactor(g: nat, x: int, y: int)
    requires g > 0 && g * x <= y * g
    ensures x <= y
  {
    if x > y {
      MulLe(g, y + 1, x);
    }
  }

  /** From one attempt to the next the delay shrinks for no job exactly when the two delays before jitter
      rule it out. */
  lemma DelayStepIff(config: SchedulerConfig, a: nat)
    requires PositiveConfig(config) && a >= 1
    ensures Bounded(config, a) <= Bounded(config, a + 1)
    ensures var now, next := Bounded(config, a), Bounded(config, a + 1);
            && (NeverShorter(now, next) ==>
                  forall jobId :: Delay(config, jobId, a) <= Delay(config, jobId, a + 1))
            && (HashesReach(now, next) && !NeverShorter(now, next) ==>
                  exists jobId :: Delay(config, jobId, a) > Delay(config, jobId, a + 1))
  {
    BoundedMonotone(config, a, a + 1);
    var now, next := Bounded(config, a), Bounded(config, a + 1);
    DelayOfHash(config, [], a);
    hide Bounded, NeverShorter, HashesReach, JobHash, HashJitter, Delay;
    HashStep(now, next);
    forall jobId | NeverShorter(now, next) ensures Delay(config, jobId, a) <= Delay(config, jobId, a + 1) {
      DelayOfHash(config, jobId, a);
      DelayOfHash(config, jobId, a + 1);
    }
    if HashesReach(now, next) && !NeverShorter(now, next) {
      var hash: U64 :| now + HashJitter(hash, now) > next + HashJitter(hash, next);
      var jobId := IdOfHash(hash);
      DelayOfHash(config, jobId, a);
      DelayOfHash(config, jobId, a + 1);
      assert Delay(config, jobId, a) > Delay(config, jobId, a + 1);
    }
  }

  /** The one place where the cap cuts a doubling: the last uncapped delay is `base * 2^e`. */
  predicate CutAt(config: SchedulerConfig, e: nat) {
    e < 16 && config.baseRetryMs * Pow2(e) < config.maxRetryMs < config.baseRetryMs * Pow2(e + 1)
  }

  /** The configuration alone: across the cut, if there is one, no hash shortens the delay. */
  ghost predicate SmoothCut(config: SchedulerConfig) {
    forall e :: CutAt(config, e) ==> NeverShorter(config.baseRetryMs * Pow2(e), config.maxRetryMs)
  }

  ghost predicate CutReaches(config: SchedulerConfig) {
    forall e :: CutAt(config, e) ==> HashesReach(config.baseRetryMs * Pow2(e), config.maxRetryMs)
  }

  lemma CutDelays(config: SchedulerConfig, e: nat)
    requires PositiveConfig(config) && CutAt(config, e)
    ensures Bounded(config, e + 1) == config.baseRetryMs * Pow2(e)
    ensures Bounded(config, e + 2) == config.maxRetryMs
  {
    BoundedExact(config, e + 1);
    BoundedExact(config, e + 2);
  }

  /** Away from the cut the delay stands still or doubles. */
  lemma StepKinds(config: SchedulerConfig, a: nat)
    requires PositiveConfig(config) && a >= 1
    ensures var now, next := Bounded(config, a), Bounded(config, a + 1);
            0 < now && (next == now || next == 2 * now || CutAt(config, a - 1))
  {
    BoundedExact(config, a);
    BoundedExact(config, a + 1);
    if a <= 16 {
      assert Pow2(a) == 2 * Pow2(a - 1);
      Twice(config.baseRetryMs, Pow2(a - 1));
    }
  }

  lemma Twice(k: int, p: int)
    ensures k * (2 * p) == 2 * (k * p)
  {
  }

  lemma EasySteps(now: int, next: int)
    requires 0 < now <= next && (next == now || now + now / 5 <= next)
    ensures NeverShorter(now, next)
  {
  }

  lemma SmoothStep(config: SchedulerConfig, a: nat)
    requires PositiveConfig(config) && a >= 1 && SmoothCut(config)
    ensures Bounded(config, a) <= Bounded(config, a + 1)
    ensures NeverShorter(Bounded(config, a), Bounded(config, a + 1))
  {
    hide NeverShorter, Bounded;
    BoundedMonotone(config, a, a + 1);
    StepKinds(config, a);
    if CutAt(config, a - 1) {
      CutDelays(config, a - 1);
    } else {
      EasySteps(Bounded(config, a), Bounded(config, a + 1));
    }
  }

  lemma {:induction false} SmoothMonotone(config: SchedulerConfig, jobId: string, a: nat, b: nat)
    requires PositiveConfig(config) && SmoothCut(config) && 1 <= a <= b
    ensures Delay(config, jobId, a) <= Delay(config, jobId, b)
    decreases b
  {
    if a < b {
      hide SmoothCut, Delay, NeverShorter, Bounded;
      SmoothMonotone(config, jobId, a, b - 1);
      SmoothStep(config, b - 1);
      DelayStepIff(config, b - 1);
    }
  }

  /** No job ever waits less after a later attempt. */
  ghost predicate DelaysMonotone(config: SchedulerConfig) {
    forall jobId, a: nat, b: nat :: 1 <= a <= b ==> Delay(config, jobId, a) <= Delay(config, jobId, b)
  }

  /** The whole delay of every job is nondecreasing exactly for the configurations with a smooth cut. */
  lemma DelayMonotoneIff(config: SchedulerConfig)
    requires PositiveConfig(config)
    ensures SmoothCut(config) ==> DelaysMonotone(config)
    ensures CutReaches(config) ==> (DelaysMonotone(config) <==> SmoothCut(config))
  {
    hide Delay, NeverShorter, HashesReach, Bounded, CutAt;
    forall jobId, a: nat, b: nat | SmoothCut(config) && 1 <= a <= b
      ensures Delay(config, jobId, a) <= Delay(config, jobId, b)
    {
      SmoothMonotone(config, jobId, a, b);
    }
    if CutReaches(config) && !SmoothCut(config) {
      var e: nat :| CutAt(config, e) && !NeverShorter(config.baseRetryMs * Pow2(e), config.maxRetryMs);
      CutDelays(config, e);
      DelayStepIff(config, e + 1);
      var jobId :| Delay(config, jobId, e + 1) > Delay(config, jobId, e + 2);
    }
  }

  /** Caps up to five times 2^32 milliseconds, about 248 days, are decided either way. */
  lemma ShortCapsReach(config: SchedulerConfig)
    requires PositiveConfig(config) && config.maxRetryMs <= 5 * 0x1_0000_0000
    ensures CutReaches(config)
  {
    forall e: nat | CutAt(config, e) ensures HashesReach(config.baseRetryMs * Pow2(e), config.maxRetryMs) {
      CutDelays(config, e);
      BoundedExact(config, e + 1);
      SmallFifths(config.baseRetryMs * Pow2(e), config.maxRetryMs);
    }
  }

  lemma SmallFifths(now: nat, next: nat)
    requires now <= next <= 5 * 0x1_0000_0000
    ensures HashesReach(now, next)
  {
    var f1, f2 := now / 5, next / 5;
    if f1 > 0 {
      MulLe(f1, f2, 0x1_0000_0000);
      MulLe(0x1_0000_0000, f1, 0x1_0000_0000);
      MulLe(U64_MAX + 1, 1, Gcd(f1, f2));
    }
  }

  /** One step: enough room between the two delays before jitter. */
  lemma DelayStep(config: SchedulerConfig, jobId: string, a: nat)
    requires PositiveConfig(config) && a >= 1
    requires var now, next := Bounded(config, a), Bounded(config, a + 1); next == now || now + now / 5 <= next
    ensures Delay(config, jobId, a) <= Delay(config, jobId, a + 1)
  {
    hide Delay, NeverShorter, Bounded;
    DelayStepIff(config, a);
    DelayOfHash(config, jobId, a);
    EasySteps(Bounded(config, a), Bounded(config, a + 1));
  }

  /** Under the default configuration the whole delay of a job is nondecreasing in the attempt number. */
  lemma DefaultDelayMonotone(jobId: string, a: nat, b: nat)
    requires 1 <= a <= b
    ensures Delay(DEFAULT_CONFIG, jobId, a) <= Delay(DEFAULT_CONFIG, jobId, b)
  {
    forall e: nat | CutAt(DEFAULT_CONFIG, e) ensures NeverShorter(1_000 * Pow2(e), 60_000) {
      DefaultCut(e);
    }
    SmoothMonotone(DEFAULT_CONFIG, jobId, a, b);
  }

  lemma DefaultCut(e: nat)
    requires CutAt(DEFAULT_CONFIG, e)
    ensures Pow2(e) == 32
  {
    assert Pow2(5) == 32 && Pow2(6) == 64;
    if e < 5 {
      Pow2Monotone(e + 1, 5);
    } else if e > 5 {
      Pow2Monotone(6, e);
    }
  }

  /** For other configurations it can decrease, also for a job id that admission accepts: the cap may cut the
      growth while the jitter wraps. */
  lemma DelayCanDecrease()
    ensures var config := SchedulerConfig(100, 10_000, 60_000, 50, 55);
            && PositiveConfig(config) && !SmoothCut(config) && CutReaches(config)
            && ValidIdentifier("c", MAX_JOB_ID_BYTES)
            && Delay(config, "c", 1) == 59 && Delay(config, "c", 2) == 55
  {
    var config := SchedulerConfig(100, 10_000, 60_000, 50, 55);
    ShortCapsReach(config);
    assert Pow2(0) == 1 && Pow2(1) == 2;
    assert Gcd(10, 11) == 1;
    assert CutAt(config, 0);
    CutDelays(config, 0);
    DelayOfHash(config, "c", 1);
    DelayOfHash(config, "c", 2);
    assert JobHash("c") == 99 by {
      assert "c"[..0] == "";
      assert JobHash("") == 0;
    }
  }

  /** The SQL backoff in milliseconds:
      `LEAST(60000, 1000 * power(2, LEAST(16, GREATEST(0, attempts - 1))))`. */
  function SqlBackoff(attempts: nat): nat {
    Min(60_000, 1_000 * Pow2(Min(16, Max(0, attempts - 1))))
  }

  /** Without jitter the two implementations wait equally long. */
  lemma SqlBackoffAgrees(attempts: nat)
    ensures SqlBackoff(attempts) == Bounded(DEFAULT_CONFIG, attempts)
  {
    ShiftFits(Exponent(attempts));
  }
}
