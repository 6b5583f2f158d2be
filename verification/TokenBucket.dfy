// Token bucket rate limiter with on-demand refill
// (rust/easytier-core/src/foundation/token_bucket.rs).
//
// Clock readings are parameters, in nanoseconds. The specification counts
// credit, tokens times 10^9 plus the nanosecond remainder: a refill adds rate
// times elapsed time, clipped at capacity times 10^9.
module TokenBucket {
  import opened Arithmetic

  const NANOS_PER_SECOND: nat := 1_000_000_000
  const MIN_SLEEP_NANOS: nat := 1_000_000

  datatype BucketConfig = BucketConfig(capacity: nat, fillRate: nat)

  datatype BucketState = BucketState(availableTokens: nat, lastRefill: nat, refillRemainder: nat)

  ghost predicate ValidConfig(cfg: BucketConfig) {
    1 <= cfg.capacity <= U64_MAX && 1 <= cfg.fillRate <= U64_MAX
  }

  // The remainder stays below one token and is zero at capacity.
  ghost predicate ValidState(cfg: BucketConfig, st: BucketState) {
    && st.availableTokens <= cfg.capacity
    && st.refillRemainder < NANOS_PER_SECOND
    && (st.availableTokens == cfg.capacity ==> st.refillRemainder == 0)
  }

  ghost function Credit(st: BucketState): nat {
    st.availableTokens * NANOS_PER_SECOND + st.refillRemainder
  }

  // The credit a bucket holding `credit` has after `nanos` nanoseconds.
  ghost function CreditAfter(cfg: BucketConfig, credit: nat, nanos: nat): nat {
    Min(cfg.capacity * NANOS_PER_SECOND, credit + cfg.fillRate * nanos)
  }

  // The specification of refill: the state that holds that credit.
  ghost function Refilled(cfg: BucketConfig, st: BucketState, now: nat): BucketState {
    var credit := CreditAfter(cfg, Credit(st), SaturatingSub(now, st.lastRefill));
    BucketState(credit / NANOS_PER_SECOND, Max(st.lastRefill, now), credit % NANOS_PER_SECOND)
  }

  lemma CreditBound(cfg: BucketConfig, st: BucketState)
    requires ValidState(cfg, st)
    ensures Credit(st) <= cfg.capacity * NANOS_PER_SECOND
    ensures Credit(st) == cfg.capacity * NANOS_PER_SECOND <==> st.availableTokens == cfg.capacity
    ensures Credit(st) / NANOS_PER_SECOND == st.availableTokens
    ensures Credit(st) % NANOS_PER_SECOND == st.refillRemainder
  {
  }

  // A refilled state is valid, holds the specified credit, and is unchanged
  // when no time has passed.
  lemma RefilledCredit(cfg: BucketConfig, st: BucketState, now: nat)
    requires ValidState(cfg, st)
    ensures ValidState(cfg, Refilled(cfg, st, now))
    ensures Credit(Refilled(cfg, st, now)) == CreditAfter(cfg, Credit(st), SaturatingSub(now, st.lastRefill))
    ensures now <= st.lastRefill ==> Refilled(cfg, st, now) == st
  {
    CreditBound(cfg, st);
  }

  // Equal credit at equal stamps is the same state.
  lemma CreditDeterminesState(cfg: BucketConfig, a: BucketState, b: BucketState)
    requires ValidState(cfg, a) && ValidState(cfg, b)
    requires Credit(a) == Credit(b) && a.lastRefill == b.lastRefill
    ensures a == b
  {
    CreditBound(cfg, a);
    CreditBound(cfg, b);
  }

  lemma CreditAfterComposes(cfg: BucketConfig, credit: nat, d: nat, e: nat)
    ensures CreditAfter(cfg, CreditAfter(cfg, credit, d), e) == CreditAfter(cfg, credit, d + e)
  {
    assert cfg.fillRate * (d + e) == cfg.fillRate * d + cfg.fillRate * e;
  }

  // Refilling at one reading and then another is refilling at the later one.
  lemma RefillTwice(cfg: BucketConfig, st: BucketState, a: nat, b: nat)
    requires ValidState(cfg, st)
    ensures Refilled(cfg, Refilled(cfg, st, a), b) == Refilled(cfg, st, Max(a, b))
  {
    var mid := Refilled(cfg, st, a);
    RefilledCredit(cfg, st, a);
    RefilledCredit(cfg, mid, b);
    RefilledCredit(cfg, st, Max(a, b));
    CreditAfterComposes(cfg, Credit(st), SaturatingSub(a, st.lastRefill), SaturatingSub(b, mid.lastRefill));
    CreditDeterminesState(cfg, Refilled(cfg, mid, b), Refilled(cfg, st, Max(a, b)));
  }

  ghost function RefilledThrough(cfg: BucketConfig, st: BucketState, readings: seq<nat>): BucketState
    decreases |readings|
  {
    if readings == [] then st
    else Refilled(cfg, RefilledThrough(cfg, st, readings[..|readings| - 1]), readings[|readings| - 1])
  }

  ghost function Latest(start: nat, readings: seq<nat>): nat
    decreases |readings|
  {
    if readings == [] then start
    else Max(Latest(start, readings[..|readings| - 1]), readings[|readings| - 1])
  }

  // Refilling at any number of readings, in any order, gives the state of
  // refilling once at the latest of them.
  lemma {:induction false} RefillStepsAgree(cfg: BucketConfig, st: BucketState, readings: seq<nat>)
    requires ValidState(cfg, st)
    ensures RefilledThrough(cfg, st, readings) == Refilled(cfg, st, Latest(st.lastRefill, readings))
    decreases |readings|
  {
    if readings == [] {
      RefilledCredit(cfg, st, st.lastRefill);
    } else {
      var prefix := readings[..|readings| - 1];
      RefillStepsAgree(cfg, st, prefix);
      RefillTwice(cfg, st, Latest(st.lastRefill, prefix), readings[|readings| - 1]);
    }
  }

  // u128::saturating_mul and saturating_add
  function SaturatingMul(a: nat, b: nat): nat {
    Min(U128_MAX, a * b)
  }

  function SaturatingAdd(a: nat, b: nat): nat {
    Min(U128_MAX, a + b)
  }

  // Saturation changes the token count only where both the saturated and the
  // exact amount fill any bucket.
  lemma SaturationIsInvisible(cfg: BucketConfig, room: nat, remainder: nat, elapsed: nat)
    requires ValidConfig(cfg) && room <= cfg.capacity && remainder < NANOS_PER_SECOND
    ensures
      var generated := SaturatingAdd(SaturatingMul(cfg.fillRate, elapsed), remainder);
      var exact := cfg.fillRate * elapsed + remainder;
      && (generated / NANOS_PER_SECOND >= room <==> exact >= room * NANOS_PER_SECOND)
      && (generated / NANOS_PER_SECOND < room ==> generated == exact)
  {
    var product := cfg.fillRate * elapsed;
    var generated := SaturatingAdd(SaturatingMul(cfg.fillRate, elapsed), remainder);
    if product + remainder > U128_MAX {
      assert generated == U128_MAX;
    } else {
      assert generated == product + remainder;
    }
  }

  // Whole nanoseconds until the credit reaches `tokens`, rounded up.
  function WaitNanos(cfg: BucketConfig, st: BucketState, tokens: nat): nat
    requires ValidConfig(cfg) && ValidState(cfg, st) && st.availableTokens < tokens
  {
    DivCeil((tokens - st.availableTokens) * NANOS_PER_SECOND - st.refillRemainder, cfg.fillRate)
  }

  // u128::div_ceil
  function DivCeil(a: nat, d: nat): nat
    requires d >= 1
  {
    (a + d - 1) / d
  }

  // The sleep that consume_chunk computes from a wait.
  function ClampedSleep(wait: nat): nat {
    Max(Min(wait, U64_MAX), MIN_SLEEP_NANOS)
  }

  lemma CeilDivision(a: nat, d: nat, n: nat)
    requires d >= 1
    ensures DivCeil(a, d) <= n <==> a <= d * n
  {
    var q := (a + d - 1) / d;
    var r := (a + d - 1) % d;
    assert a + d - 1 == d * q + r;
    if q <= n {
      MulMonotone(d, q, n);
    } else {
      MulMonotone(d, n + 1, q);
    }
  }

  // With no competing consumer, the bucket holds `tokens` after `n`
  // nanoseconds exactly when `n` is at least the computed wait.
  lemma WaitIsLeast(cfg: BucketConfig, st: BucketState, tokens: nat, n: nat)
    requires ValidConfig(cfg) && ValidState(cfg, st)
    requires st.availableTokens < tokens <= cfg.capacity
    ensures Refilled(cfg, st, st.lastRefill + n).availableTokens >= tokens <==> n >= WaitNanos(cfg, st, tokens)
    ensures WaitNanos(cfg, st, tokens) >= 1
  {
    var missing := (tokens - st.availableTokens) * NANOS_PER_SECOND - st.refillRemainder;
    CeilDivision(missing, cfg.fillRate, n);
    CeilDivision(missing, cfg.fillRate, 0);
    CreditBound(cfg, st);
    assert missing == tokens * NANOS_PER_SECOND - Credit(st);
    RefilledCredit(cfg, st, st.lastRefill + n);
    assert tokens * NANOS_PER_SECOND <= cfg.capacity * NANOS_PER_SECOND;
  }

  // Unless the wait exceeds what a u64 of nanoseconds can hold, the bucket
  // holds `tokens` after the computed sleep, however late the wake-up.
  lemma SleepSuffices(cfg: BucketConfig, st: BucketState, tokens: nat, n: nat)
    requires ValidConfig(cfg) && ValidState(cfg, st)
    requires st.availableTokens < tokens <= cfg.capacity
    requires WaitNanos(cfg, st, tokens) <= U64_MAX && n >= ClampedSleep(WaitNanos(cfg, st, tokens))
    ensures Refilled(cfg, st, st.lastRefill + n).availableTokens >= tokens
  {
    WaitIsLeast(cfg, st, tokens, n);
  }

  // The clamped sleep is the shortest one of at least a millisecond after which
  // the bucket holds `tokens`.
  lemma SleepIsShortest(cfg: BucketConfig, st: BucketState, tokens: nat, n: nat)
    requires ValidConfig(cfg) && ValidState(cfg, st)
    requires st.availableTokens < tokens <= cfg.capacity && WaitNanos(cfg, st, tokens) <= U64_MAX
    ensures
      n >= ClampedSleep(WaitNanos(cfg, st, tokens)) <==>
      n >= MIN_SLEEP_NANOS && Refilled(cfg, st, st.lastRefill + n).availableTokens >= tokens
  {
    WaitIsLeast(cfg, st, tokens, n);
  }

  // One sleep is enough for a chunk: the clock is not behind the last refill
  // and the wait fits a u64.
  ghost predicate OneSleepIsEnough(cfg: BucketConfig, st: BucketState, tokens: nat, start: nat)
    requires ValidConfig(cfg) && ValidState(cfg, st)
  {
    RefilledCredit(cfg, st, start);
    var now := Refilled(cfg, st, start);
    st.lastRefill <= start && (now.availableTokens < tokens ==> WaitNanos(cfg, now, tokens) <= U64_MAX)
  }

  ghost function Charged(st: BucketState, tokens: nat): BucketState {
    st.(availableTokens := if tokens <= st.availableTokens then st.availableTokens - tokens else 0)
  }

  // One locked attempt to take `tokens`: an oversized request is refused
  // before the clock is looked at.
  ghost function Attempt(cfg: BucketConfig, st: BucketState, tokens: nat, now: nat): (r: (BucketState, bool)) {
    if tokens > cfg.capacity then (st, false)
    else
      var refilled := Refilled(cfg, st, now);
      if refilled.availableTokens < tokens then (refilled, false) else (Charged(refilled, tokens), true)
  }

  // What an attempt leaves: an oversized one the state as it was, any other the
  // credit of that reading, less exactly what is granted.
  lemma AttemptIsExact(cfg: BucketConfig, st: BucketState, tokens: nat, now: nat)
    requires ValidState(cfg, st)
    ensures
      var (next, granted) := Attempt(cfg, st, tokens, now);
      && ValidState(cfg, next)
      && (tokens > cfg.capacity ==> next == st && !granted)
      && (tokens <= cfg.capacity ==>
            && next.lastRefill == Max(st.lastRefill, now)
            && Credit(next) + (if granted then tokens * NANOS_PER_SECOND else 0)
               == CreditAfter(cfg, Credit(st), SaturatingSub(now, st.lastRefill)))
  {
    RefilledCredit(cfg, st, now);
  }

  // A refused request leaves the state alone if the clock is not ahead of the
  // last refill, and otherwise more credit than before.
  lemma RefusalMakesProgress(cfg: BucketConfig, st: BucketState, tokens: nat, now: nat)
    requires ValidConfig(cfg) && ValidState(cfg, st)
    requires tokens <= cfg.capacity && !Attempt(cfg, st, tokens, now).1
    ensures
      var next := Attempt(cfg, st, tokens, now).0;
      && ValidState(cfg, next)
      && (if now <= st.lastRefill then next == st else next.lastRefill == now && Credit(st) < Credit(next))
      && Credit(next) < cfg.capacity * NANOS_PER_SECOND
  {
    RefilledCredit(cfg, st, now);
    CreditBound(cfg, Refilled(cfg, st, now));
    if now > st.lastRefill {
      MulMonotone(cfg.fillRate, 1, now - st.lastRefill);
    }
  }

  lemma ChargeIsCovered(cfg: BucketConfig, st: BucketState, tokens: nat, now: nat)
    requires ValidState(cfg, st)
    requires tokens <= Refilled(cfg, st, now).availableTokens
    ensures
      var after := Charged(Refilled(cfg, st, now), tokens);
      && ValidState(cfg, after)
      && st.lastRefill <= after.lastRefill
      && tokens * NANOS_PER_SECOND + Credit(after) <= Credit(st) + cfg.fillRate * (after.lastRefill - st.lastRefill)
  {
    RefilledCredit(cfg, st, now);
  }

  // After a refusal and the computed sleep the same request is granted, if
  // nobody else asks and one sleep is enough.
  lemma SecondAttemptSucceeds(cfg: BucketConfig, st: BucketState, tokens: nat, start: nat, end: nat)
    requires ValidConfig(cfg) && ValidState(cfg, st) && tokens <= cfg.capacity
    requires OneSleepIsEnough(cfg, st, tokens, start) && !Attempt(cfg, st, tokens, start).1
    requires
      var refused := Attempt(cfg, st, tokens, start).0;
      ValidState(cfg, refused) && end >= start + ClampedSleep(WaitNanos(cfg, refused, tokens))
    ensures Attempt(cfg, Attempt(cfg, st, tokens, start).0, tokens, end).1
  {
    SleepSuffices(cfg, Attempt(cfg, st, tokens, start).0, tokens, end - start);
  }
}
