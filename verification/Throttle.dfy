/** Throttling of password attempts: the backoff counter, the gate in front of it, and the gated unlock. */
module Throttle {
  import opened Common
  import opened Policy
  import D = Duress
  import V = VaultTypes

  // ------------------------------------------------------------------------------------------
  // Durations and instants, in nanoseconds
  // ------------------------------------------------------------------------------------------

  const SECOND: nat := 1_000_000_000
  const MILLISECOND: nat := 1_000_000
  const DURATION_LIMIT: nat := U64_LIMIT * SECOND

  type Duration = x: int | 0 <= x < DURATION_LIMIT

  /** Monotonic clock readings. */
  type Instant = nat

  function SaturatingAdd(a: Duration, b: Duration): Duration {
    if a + b < DURATION_LIMIT then a + b else DURATION_LIMIT - 1
  }

  datatype ThrottlePolicy = ThrottlePolicy(quietPeriod: Duration, maxDelay: Duration, jitterMax: Duration) {
    /** The jitter range in milliseconds, narrowed to 64 bits as the program narrows it. */
    function JitterRange(): nat { jitterMax / MILLISECOND % U64_LIMIT }

    /** The range can be incremented without overflow; otherwise drawing jitter panics. */
    predicate Usable() { JitterRange() + 1 < U64_LIMIT }
  }

  // ------------------------------------------------------------------------------------------
  // The limiter
  // ------------------------------------------------------------------------------------------

  function Seconds(n: nat): Duration
    requires n <= 300
  {
    n * SECOND
  }

  function PasswordDelay(failures: nat): Duration {
    if failures <= 2 then Seconds(0)
    else if failures <= 4 then Seconds(1)
    else if failures <= 6 then Seconds(5)
    else if failures <= 8 then Seconds(10)
    else if failures <= 10 then Seconds(15)
    else if failures <= 12 then Seconds(30)
    else if failures <= 15 then Seconds(60)
    else Seconds(300)
  }

  /** `random` is the 64-bit value drawn. */
  function Jitter(policy: ThrottlePolicy, random: u64): Duration
    requires policy.Usable()
  {
    if policy.jitterMax / MILLISECOND == 0 then 0 else random % (policy.JitterRange() + 1) * MILLISECOND
  }

  /** What the limiter remembers. */
  datatype Streak = Streak(failures: u32, lastFailure: Option<Instant>)

  const CLEAN: Streak := Streak(0, None)

  /** The quiet period has passed since the last failure. */
  predicate Quiet(policy: ThrottlePolicy, s: Streak, now: Instant) {
    s.lastFailure.Some? && Min(Max(0, now - s.lastFailure.value), DURATION_LIMIT - 1) >= policy.quietPeriod
  }

  function AfterFailure(policy: ThrottlePolicy, s: Streak, now: Instant): Streak {
    var kept := if Quiet(policy, s, now) then s.failures / 2 else s.failures;
    Streak(Min(kept + 1, U32_LIMIT - 1), Some(now))
  }

  /** The scheduled part of the delay. */
  function BaseDelay(policy: ThrottlePolicy, failures: nat): Duration { Min(PasswordDelay(failures), policy.maxDelay) }

  function DelayFor(policy: ThrottlePolicy, failures: nat, random: u64): Duration
    requires policy.Usable()
  {
    SaturatingAdd(BaseDelay(policy, failures), Jitter(policy, random))
  }

  class UnlockRateLimiter {
    var failures: u32
    var lastFailure: Option<Instant>

    constructor ()
      ensures Value() == CLEAN
    {
      failures := 0;
      lastFailure := None;
    }

    function Value(): Streak
      reads this
    {
      Streak(failures, lastFailure)
    }

    method OnSuccess()
      modifies this
      ensures Value() == CLEAN
    {
      failures := 0;
      lastFailure := None;
    }

    method OnFailureDelay(policy: ThrottlePolicy, now: Instant, random: u64) returns (delay: Duration)
      requires policy.Usable()
      modifies this
      ensures Value() == AfterFailure(policy, old(Value()), now)
      ensures delay == DelayFor(policy, Value().failures, random)
    {
      if lastFailure.Some? {
        var quiet := Min(Max(0, now - lastFailure.value), DURATION_LIMIT - 1);
        if quiet >= policy.quietPeriod { failures := failures / 2; }
      }
      failures := Min(failures + 1, U32_LIMIT - 1);
      lastFailure := Some(now);
      var base := PasswordDelay(failures);
      delay := SaturatingAdd(Min(base, policy.maxDelay), Jitter(policy, random));
    }
  }

  // ------------------------------------------------------------------------------------------
  // The gate
  // ------------------------------------------------------------------------------------------

  class AuthGate {
    const policy: ThrottlePolicy
    const limiter: UnlockRateLimiter

    constructor (throttle: ThrottlePolicy)
      ensures policy == throttle && fresh(limiter) && limiter.Value() == CLEAN
    {
      policy := throttle;
      limiter := new UnlockRateLimiter();
    }

    /** `res` is what the operation returned; `slept` is the delay applied before it is passed on. */
    method Run<T, E>(res: Result<T, E>, isAuthFailure: E -> bool, shouldResetOnSuccess: T -> bool, now: Instant,
                     random: u64)
      returns (r: Result<T, E>, slept: Duration)
      requires policy.Usable()
      modifies limiter
      ensures r == res
      ensures limiter.Value() ==
                if res.Ok? && shouldResetOnSuccess(res.value) then CLEAN
                else if res.Err? && isAuthFailure(res.error) then AfterFailure(policy, old(limiter.Value()), now)
                else old(limiter.Value())
      ensures slept ==
                if res.Err? && isAuthFailure(res.error) then DelayFor(policy, limiter.Value().failures, random) else 0
    {
      slept := 0;
      match res {
        case Ok(v) =>
          if shouldResetOnSuccess(v) { limiter.OnSuccess(); }
        case Err(e) =>
          if isAuthFailure(e) { slept := limiter.OnFailureDelay(policy, now, random); }
      }
      r := res;
    }

    method Reset()
      modifies limiter
      ensures limiter.Value() == CLEAN
    {
      limiter.OnSuccess();
    }
  }

  type Unlocked = Result<(UnlockOutcome, bytes), D.UnlockError>

  predicate ResetsStreak(r: Unlocked) { r.Ok? && r.value.0.Primary? }

  predicate IsAuthFailure(r: Unlocked) { r.Err? && r.error.UnlockAuthFailed? }

  /** The streak after one gated unlock that ended in `r`. */
  function AfterUnlock(policy: ThrottlePolicy, s: Streak, r: Unlocked, now: Instant): Streak {
    if ResetsStreak(r) then CLEAN else if IsAuthFailure(r) then AfterFailure(policy, s, now) else s
  }

  method UnlockPlaintextJsonGated(gate: AuthGate, c: D.Crypto, f: D.Formats, parsed: V.ParsedVaultFile,
                                  password: V.Password,
                                  now: Instant, random: u64)
    returns (r: Unlocked, slept: Duration)
    requires gate.policy.Usable()
    modifies gate.limiter
    ensures r == D.UnlockVault(c, f, parsed, password)
    ensures gate.limiter.Value() == AfterUnlock(gate.policy, old(gate.limiter.Value()), r, now)
    ensures slept == if IsAuthFailure(r) then DelayFor(gate.policy, gate.limiter.Value().failures, random) else 0
  {
    r, slept := gate.Run(D.UnlockVault(c, f, parsed, password), (e: D.UnlockError) => e.UnlockAuthFailed?,
                         (v: (UnlockOutcome, bytes)) => false, now, random);
    if r.Ok? && r.value.0 == Primary { gate.Reset(); }
  }

  /** A primary unlock clears the streak, a decoy unlock and every failure but a failed authentication leave it alone. */
  lemma UnlocksAndTheStreak(policy: ThrottlePolicy, s: Streak, pt: bytes, now: Instant)
    ensures AfterUnlock(policy, s, Ok((Primary, pt)), now) == Streak(0, None)
    ensures AfterUnlock(policy, s, Ok((Decoy, pt)), now) == s
    ensures AfterUnlock(policy, s, Err(D.KdfFailed), now) == s && AfterUnlock(policy, s, Err(D.PayloadDecode), now) == s
    ensures AfterUnlock(policy, s, Err(D.UnlockAuthFailed), now) == AfterFailure(policy, s, now)
  {
  }

  /** The failures the gate lets pass: a key derivation refused on a single vault, and an envelope that is no JSON.
      Every
      other failure, wrong passwords among them, counts and delays. */
  lemma UnthrottledFailures(c: D.Crypto, f: D.Formats, parsed: V.ParsedVaultFile, q: V.Password, policy: ThrottlePolicy,
                            s: Streak, now: Instant)
    ensures var r := D.UnlockVault(c, f, parsed, q);
            var exempt := && parsed.mode.Encrypted?
                          && if parsed.header.duress.None? then c.Derive(q, parsed.header.crypto).None?
                             else f.envelope.dec(parsed.payload).None?;
            && (r.Err? ==> (IsAuthFailure(r) <==> !exempt))
            && (r.Err? && !exempt ==> AfterUnlock(policy, s, r, now) == AfterFailure(policy, s, now))
            && (r.Err? && exempt ==> AfterUnlock(policy, s, r, now) == s)
  {
    D.UnlockAnswers(c, f, parsed, q);
  }

  /** A password that does not open an encrypted single vault whose key it derives is counted and delayed. */
  lemma WrongPasswordsCount(c: D.Crypto, f: D.Formats, parsed: V.ParsedVaultFile, q: V.Password, policy: ThrottlePolicy,
                            s: Streak, now: Instant)
    requires parsed.mode.Encrypted? && parsed.header.duress.None? && c.Derive(q, parsed.header.crypto).Some?
    requires D.DecryptWith(c, parsed.headerBytes, parsed.header.crypto, parsed.payload, q).None?
    ensures D.UnlockVault(c, f, parsed, q) == Err(D.UnlockAuthFailed)
    ensures AfterUnlock(policy, s, D.UnlockVault(c, f, parsed, q), now) == AfterFailure(policy, s, now)
  {
  }

  // ------------------------------------------------------------------------------------------
  // Delays
  // ------------------------------------------------------------------------------------------

  /** Every delay lies between the capped schedule and that plus the jitter bound. */
  lemma {:induction false} DelayBounds(policy: ThrottlePolicy, failures: nat, random: u64)
    requires policy.Usable()
    ensures BaseDelay(policy, failures) <= DelayFor(policy, failures, random)
                                        <= SaturatingAdd(BaseDelay(policy, failures), policy.jitterMax)
    ensures failures <= 2 ==> BaseDelay(policy, failures) == 0
  {
    var range := policy.JitterRange();
    assert range <= policy.jitterMax / MILLISECOND;
    assert random % (range + 1) <= range;
    assert random % (range + 1) * MILLISECOND <= policy.jitterMax;
  }

  /** The schedule, in seconds: free up to two failures, then 1, 5, 10, 15 and 30 for two failures each, 60 for three,
      and 300 from the sixteenth on, capped by the policy. */
  lemma ScheduleValues(policy: ThrottlePolicy, n: nat)
    requires policy.maxDelay >= 300 * SECOND
    ensures BaseDelay(policy, n) % SECOND == 0
    ensures var seconds := BaseDelay(policy, n) / SECOND;
            && (seconds == 0 <==> n < 3) && (seconds == 1 <==> 3 <= n < 5) && (seconds == 5 <==> 5 <= n < 7)
            && (seconds == 10 <==> 7 <= n < 9) && (seconds == 15 <==> 9 <= n < 11) && (seconds == 30 <==> 11 <= n < 13)
            && (seconds == 60 <==> 13 <= n < 16) && (seconds == 300 <==> 16 <= n)
  {
  }

  /** The cap only ever lowers a delay to itself. */
  lemma CapApplies(policy: ThrottlePolicy, n: nat)
    ensures BaseDelay(policy, n) == Min(BaseDelay(policy.(maxDelay := DURATION_LIMIT - 1), n), policy.maxDelay)
  {
  }

  /** Every whole number of milliseconds up to the bound can be drawn on top of the base delay. */
  lemma JitterCoversItsRange(policy: ThrottlePolicy, failures: nat, ms: nat)
    requires policy.Usable() && ms <= policy.jitterMax / MILLISECOND < U64_LIMIT
    requires BaseDelay(policy, failures) + ms * MILLISECOND < DURATION_LIMIT
    ensures exists random: u64 :: DelayFor(policy, failures, random) == BaseDelay(policy, failures) + ms * MILLISECOND
  {
    var range := policy.jitterMax / MILLISECOND;
    SmallRemainder(range, U64_LIMIT);
    SmallRemainder(ms, range + 1);
    var random: u64 := ms;
    assert Jitter(policy, random) == ms * MILLISECOND;
    assert DelayFor(policy, failures, random) == BaseDelay(policy, failures) + ms * MILLISECOND;
  }

  lemma SmallRemainder(a: nat, m: nat)
    requires a < m
    ensures a % m == a
  {
  }

  lemma BaseDelayIsMonotone(policy: ThrottlePolicy, m: nat, n: nat)
    requires m <= n
    ensures BaseDelay(policy, m) <= BaseDelay(policy, n)
  {
  }

  // ------------------------------------------------------------------------------------------
  // Runs of gated unlocks
  // ------------------------------------------------------------------------------------------

  datatype Attempt = Attempt(result: Unlocked, now: Instant)

  function RunUnlocks(policy: ThrottlePolicy, s: Streak, attempts: seq<Attempt>): Streak {
    var n := |attempts|;
    if n == 0 then s
    else AfterUnlock(policy, RunUnlocks(policy, s, attempts[..n - 1]), attempts[n - 1].result, attempts[n - 1].now)
  }

  function RunFailures(policy: ThrottlePolicy, s: Streak, times: seq<Instant>): Streak {
    var n := |times|;
    if n == 0 then s else AfterFailure(policy, RunFailures(policy, s, times[..n - 1]), times[n - 1])
  }

  /** Some attempt opened the primary vault. */
  predicate WasReset(attempts: seq<Attempt>) { exists i :: 0 <= i < |attempts| && ResetsStreak(attempts[i].result) }

  /** When the authentication failures after the last primary unlock happened. */
  function FailuresSinceReset(attempts: seq<Attempt>): seq<Instant> {
    var n := |attempts|;
    if n == 0 then []
    else if ResetsStreak(attempts[n - 1].result) then []
    else
      FailuresSinceReset(attempts[..n - 1])
      + if IsAuthFailure(attempts[n - 1].result) then [attempts[n - 1].now] else []
  }

  /** The streak after a run depends only on the authentication failures since the last primary unlock: decoy
      unlocks and every other error leave it alone. */
  lemma {:induction false} StreakCountsFailuresSinceReset(policy: ThrottlePolicy, s: Streak, attempts: seq<Attempt>)
    ensures RunUnlocks(policy, s, attempts) ==
              RunFailures(policy, if WasReset(attempts) then CLEAN else s, FailuresSinceReset(attempts))
  {
    var n := |attempts|;
    if n > 0 {
      var front, last := attempts[..n - 1], attempts[n - 1];
      StreakCountsFailuresSinceReset(policy, s, front);
      assert WasReset(attempts) <==> WasReset(front) || ResetsStreak(last.result) by {
        if WasReset(front) {
          var i :| 0 <= i < n - 1 && ResetsStreak(front[i].result);
          assert attempts[i] == front[i];
        }
        assert forall i :: 0 <= i < n - 1 ==> attempts[i] == front[i];
      }
      var times := FailuresSinceReset(front);
      if IsAuthFailure(last.result) {
        assert (times + [last.now])[..|times|] == times;
      } else {
        assert times + [] == times;
      }
    }
  }

  /** Consecutive failures less than the quiet period apart. */
  predicate Quick(policy: ThrottlePolicy, times: seq<Instant>) {
    forall i :: 0 <= i < |times| - 1 ==> times[i + 1] - times[i] < policy.quietPeriod
  }

  lemma {:induction false} LastFailureOfRun(policy: ThrottlePolicy, s: Streak, times: seq<Instant>)
    requires times != []
    ensures RunFailures(policy, s, times).lastFailure == Some(times[|times| - 1])
  {
  }

  /** After a reset, n quick failures count n, up to the counter's width. */
  lemma {:induction false} QuickFailuresCount(policy: ThrottlePolicy, times: seq<Instant>)
    requires Quick(policy, times) && policy.quietPeriod > 0
    ensures RunFailures(policy, CLEAN, times).failures == Min(|times|, U32_LIMIT - 1)
  {
    var n := |times|;
    if n > 0 {
      var front := times[..n - 1];
      assert forall i :: 0 <= i < n - 1 ==> front[i] == times[i];
      QuickFailuresCount(policy, front);
      if n > 1 {
        LastFailureOfRun(policy, CLEAN, front);
        assert times[n - 2 + 1] - times[n - 2] < policy.quietPeriod;
      }
    }
  }

  /** ... and the base delay never drops along the way. */
  lemma QuickFailuresNeverGetCheaper(policy: ThrottlePolicy, times: seq<Instant>, m: nat)
    requires Quick(policy, times) && policy.quietPeriod > 0 && m <= |times|
    ensures BaseDelay(policy, RunFailures(policy, CLEAN, times[..m]).failures)
         <= BaseDelay(policy, RunFailures(policy, CLEAN, times).failures)
  {
    assert forall i :: 0 <= i < m ==> times[..m][i] == times[i];
    QuickFailuresCount(policy, times);
    QuickFailuresCount(policy, times[..m]);
    BaseDelayIsMonotone(policy, Min(m, U32_LIMIT - 1), Min(|times|, U32_LIMIT - 1));
  }

  /** Consecutive failures, counting the one remembered in `s`, at least the quiet period apart. */
  predicate Slow(policy: ThrottlePolicy, s: Streak, times: seq<Instant>) {
    forall i :: 0 <= i < |times| ==> Quiet(policy, Before(s, times, i), times[i])
  }

  /** The failure before the i-th. */
  function Before(s: Streak, times: seq<Instant>, i: nat): Streak
    requires i <= |times|
  {
    if i == 0 then s else Streak(0, Some(times[i - 1]))
  }

  function Halved(n: nat, k: nat): nat { if k == 0 then n else Halved(n, k - 1) / 2 }

  /** Slow failures halve the streak and add one: from two or more, what exceeds two is halved every time; from less the
      streak is one. */
  lemma {:induction false} SlowFailuresHalve(policy: ThrottlePolicy, s: Streak, times: seq<Instant>)
    requires Slow(policy, s, times) && times != []
    ensures RunFailures(policy, s, times).failures == if s.failures >= 2 then 2 + Halved(s.failures - 2, |times|) else 1
  {
    var n := |times|;
    var front := times[..n - 1];
    assert Quiet(policy, Before(s, times, n - 1), times[n - 1]);
    if n > 1 {
      forall i | 0 <= i < n - 1 ensures Quiet(policy, Before(s, front, i), front[i]) {
        assert Before(s, front, i) == Before(s, times, i) && front[i] == times[i];
      }
      SlowFailuresHalve(policy, s, front);
      LastFailureOfRun(policy, s, front);
      if s.failures >= 2 { HalvedShrinks(s.failures - 2, n - 1); }
    } else {
      assert front == [];
      assert RunFailures(policy, s, front) == s;
      if s.failures >= 2 { assert Halved(s.failures - 2, 1) == Halved(s.failures - 2, 0) / 2; }
    }
  }

  lemma {:induction false} HalvedShrinks(n: nat, k: nat)
    ensures Halved(n, k) <= n
  {
    if k > 0 { HalvedShrinks(n, k - 1); }
  }

  /** Room for values of `k` bits. */
  function Bits(k: nat): (r: nat)
    ensures r > 0
  {
    if k == 0 then 1 else 2 * Bits(k - 1)
  }

  lemma {:induction false} HalvedFits(n: nat, k: nat, j: nat)
    requires j <= k && n < Bits(k)
    ensures Halved(n, j) < Bits(k - j)
  {
    if j > 0 { HalvedFits(n, k, j - 1); }
  }

  lemma {:induction false} BitsMultiply(j: nat, k: nat)
    ensures Bits(j + k) == Bits(j) * Bits(k)
  {
    if j > 0 { BitsMultiply(j - 1, k); }
  }

  lemma ThirtyTwoBits()
    ensures Bits(32) == U32_LIMIT
  {
    BitsMultiply(8, 8);
    BitsMultiply(16, 16);
    assert Bits(8) == 256;
  }

  lemma HalvedToNothing(n: u32, k: nat)
    requires k >= 32
    ensures Halved(n, k) == 0
  {
    ThirtyTwoBits();
    BitsGrow(32, k);
    HalvedFits(n, k, k);
  }

  /** Thirty-two failures a quiet period apart bring any counter to at most 2, so without a base delay; and it
      stays there. */
  lemma {:induction false} SlowFailuresForgive(policy: ThrottlePolicy, s: Streak, times: seq<Instant>)
    requires Slow(policy, s, times) && |times| >= 32
    ensures RunFailures(policy, s, times).failures <= 2
    ensures BaseDelay(policy, RunFailures(policy, s, times).failures) == 0
  {
    SlowFailuresHalve(policy, s, times);
    if s.failures >= 2 { HalvedToNothing(s.failures - 2, |times|); }
  }

  lemma {:induction false} BitsGrow(j: nat, k: nat)
    requires j <= k
    ensures Bits(j) <= Bits(k)
  {
    if j < k { BitsGrow(j, k - 1); }
  }
}
