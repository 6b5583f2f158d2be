// The bucket as an object, with a caller that sleeps until it is served
// (rust/easytier-core/src/foundation/token_bucket.rs). Other callers take their
// turns between its attempts, and the bucket may be stopped between them.
module TokenBucketConsumers {
  import opened Wrappers
  import opened Arithmetic
  import opened TokenBucket
  import opened TokenBucketRuns

  ghost function Sum(chunks: seq<nat>): nat {
    if chunks == [] then 0 else Sum(chunks[..|chunks| - 1]) + chunks[|chunks| - 1]
  }

  lemma SumSnoc(chunks: seq<nat>, chunk: nat)
    ensures Sum(chunks + [chunk]) == Sum(chunks) + chunk
  {
    assert (chunks + [chunk])[..|chunks|] == chunks;
  }

  // Chunks of `capacity` each, but for a smaller last one.
  ghost predicate Chunked(chunks: seq<nat>, capacity: nat) {
    forall i :: 0 <= i < |chunks| ==>
      1 <= chunks[i] <= capacity && (i < |chunks| - 1 ==> chunks[i] == capacity)
  }

  lemma ChunkedSnoc(chunks: seq<nat>, chunk: nat, capacity: nat)
    requires (forall c :: c in chunks ==> c == capacity) && 1 <= chunk <= capacity
    ensures Chunked(chunks + [chunk], capacity)
  {
    forall i | 0 <= i < |chunks| ensures chunks[i] == capacity {
      assert chunks[i] in chunks;
    }
  }

  // When the bucket is stopped: before an attempt looks whether it is, or after
  // that and before the attempt takes the lock.
  datatype StopTime = BeforeCheck(attempt: nat) | AfterCheck(attempt: nat)

  // The same for the attempts that follow `done` others.
  function StopAfter(stopAt: Option<StopTime>, done: nat): Option<StopTime> {
    if stopAt.None? || stopAt.value.attempt < done then None
    else Some(stopAt.value.(attempt := stopAt.value.attempt - done))
  }

  // What the other callers ask for before attempt `i`.
  function Turn(competing: seq<seq<Request>>, i: nat): seq<Request> {
    if i < |competing| then competing[i] else []
  }

  // Everyone's requests up to the attempts at these readings.
  ghost function Interleaved(tokens: nat, readings: seq<nat>, competing: seq<seq<Request>>): seq<Request> {
    if readings == [] then []
    else
      var n := |readings| - 1;
      Interleaved(tokens, readings[..n], competing) + Turn(competing, n) + [Request(tokens, readings[n])]
  }

  // One round: the others' turn, then an attempt.
  ghost predicate Round(cfg: BucketConfig, before: BucketState, turn: seq<Request>, tokens: nat, now: nat,
                        granted: bool, after: BucketState) {
    Attempt(cfg, Run(cfg, before, turn).0, tokens, now) == (after, granted)
  }

  // One round per reading, through these states; the attempts are refused, or
  // all but the last.
  ghost predicate Rounds(cfg: BucketConfig, states: seq<BucketState>, tokens: nat, readings: seq<nat>,
                         competing: seq<seq<Request>>, granted: bool) {
    && |states| == |readings| + 1
    && (granted ==> readings != [])
    && forall i :: 0 <= i < |readings| ==>
         Round(cfg, states[i], Turn(competing, i), tokens, readings[i], granted && i == |readings| - 1, states[i + 1])
  }

  lemma RoundsSnoc(cfg: BucketConfig, states: seq<BucketState>, tokens: nat, readings: seq<nat>,
                   competing: seq<seq<Request>>, now: nat, granted: bool, after: BucketState)
    requires Rounds(cfg, states, tokens, readings, competing, false)
    requires Round(cfg, states[|readings|], Turn(competing, |readings|), tokens, now, granted, after)
    ensures Rounds(cfg, states + [after], tokens, readings + [now], competing, granted)
  {
    var states', readings' := states + [after], readings + [now];
    forall i | 0 <= i < |readings'|
      ensures
        Round(cfg, states'[i], Turn(competing, i), tokens, readings'[i], granted && i == |readings|, states'[i + 1])
    {
      if i < |readings| {
        assert Round(cfg, states[i], Turn(competing, i), tokens, readings[i], false, states[i + 1]);
      }
    }
  }

  // The rounds are a run of everyone's requests, which grants the chunk if the
  // last attempt is granted.
  lemma {:induction false} RoundsAreARun(cfg: BucketConfig, states: seq<BucketState>, tokens: nat, readings: seq<nat>,
                                         competing: seq<seq<Request>>, granted: bool)
    requires Rounds(cfg, states, tokens, readings, competing, granted)
    ensures
      var (last, total) := Run(cfg, states[0], Interleaved(tokens, readings, competing));
      && last == states[|readings|]
      && (if granted then tokens else 0) <= total
      && (competing == [] ==> total == if granted then tokens else 0)
    decreases |readings|
  {
    if readings != [] {
      var n := |readings| - 1;
      assert Rounds(cfg, states[..n + 1], tokens, readings[..n], competing, false);
      RoundsAreARun(cfg, states[..n + 1], tokens, readings[..n], competing, false);
      var earlier, turn := Interleaved(tokens, readings[..n], competing), Turn(competing, n);
      RunConcat(cfg, states[0], earlier, turn);
      RunSnoc(cfg, states[0], earlier + turn, Request(tokens, readings[n]));
      assert Round(cfg, states[n], turn, tokens, readings[n], granted, states[n + 1]);
    }
  }

  // The requests lead from one state to the other and grant at least `total`,
  // or exactly that if nobody else asks.
  ghost predicate Grants(cfg: BucketConfig, st: BucketState, trace: seq<Request>, total: nat, alone: bool,
                         after: BucketState) {
    var (last, granted) := Run(cfg, st, trace);
    last == after && total <= granted && (alone ==> total == granted)
  }

  lemma GrantsJoin(cfg: BucketConfig, st: BucketState, a: seq<Request>, n: nat, mid: BucketState,
                   b: seq<Request>, m: nat, alone: bool, after: BucketState)
    requires Grants(cfg, st, a, n, alone, mid) && Grants(cfg, mid, b, m, alone, after)
    ensures Grants(cfg, st, a + b, n + m, alone, after)
  {
    RunConcat(cfg, st, a, b);
  }

  ghost function Flatten(traces: seq<seq<Request>>): seq<Request> {
    if traces == [] then [] else Flatten(traces[..|traces| - 1]) + traces[|traces| - 1]
  }

  // One stretch of requests after the other, from state to state, with what
  // each grants at least.
  datatype Chain = Chain(states: seq<BucketState>, traces: seq<seq<Request>>, amounts: seq<nat>)

  ghost predicate Chained(cfg: BucketConfig, c: Chain, alone: bool) {
    && |c.states| == |c.traces| + 1 && |c.amounts| == |c.traces|
    && forall i :: 0 <= i < |c.traces| ==> Grants(cfg, c.states[i], c.traces[i], c.amounts[i], alone, c.states[i + 1])
  }

  ghost function First(c: Chain): BucketState
    requires c.states != []
  {
    c.states[0]
  }

  ghost function Last(c: Chain): BucketState
    requires c.states != []
  {
    c.states[|c.states| - 1]
  }

  ghost function Total(c: Chain): nat {
    Sum(c.amounts)
  }

  ghost function Extended(c: Chain, trace: seq<Request>, amount: nat, after: BucketState): Chain {
    Chain(c.states + [after], c.traces + [trace], c.amounts + [amount])
  }

  lemma ChainedSnoc(cfg: BucketConfig, c: Chain, trace: seq<Request>, amount: nat, alone: bool, after: BucketState)
    requires Chained(cfg, c, alone) && Grants(cfg, Last(c), trace, amount, alone, after)
    ensures Chained(cfg, Extended(c, trace, amount, after), alone)
    ensures Total(Extended(c, trace, amount, after)) == Total(c) + amount
  {
    var c' := Extended(c, trace, amount, after);
    forall i | 0 <= i < |c'.traces|
      ensures Grants(cfg, c'.states[i], c'.traces[i], c'.amounts[i], alone, c'.states[i + 1])
    {
      if i < |c.traces| {
        assert Grants(cfg, c.states[i], c.traces[i], c.amounts[i], alone, c.states[i + 1]);
      }
    }
    SumSnoc(c.amounts, amount);
  }

  lemma {:induction false} ChainGrants(cfg: BucketConfig, c: Chain, alone: bool)
    requires Chained(cfg, c, alone)
    ensures Grants(cfg, First(c), Flatten(c.traces), Total(c), alone, Last(c))
    decreases |c.traces|
  {
    if c.traces != [] {
      var n := |c.traces| - 1;
      var shorter := Chain(c.states[..n + 1], c.traces[..n], c.amounts[..n]);
      ChainGrants(cfg, shorter, alone);
      GrantsJoin(cfg, c.states[0], Flatten(c.traces[..n]), Total(shorter), c.states[n],
                 c.traces[n], c.amounts[n], alone, c.states[n + 1]);
    }
  }

  // What is granted is covered by the credit at the start and the time passed;
  // exactly, with what was clipped, if nobody else asks.
  lemma GrantsCovered(cfg: BucketConfig, st: BucketState, trace: seq<Request>, total: nat, alone: bool,
                      after: BucketState)
    requires ValidState(cfg, st) && Grants(cfg, st, trace, total, alone, after)
    ensures st.lastRefill <= after.lastRefill
    ensures
      var supply := Credit(st) + cfg.fillRate * (after.lastRefill - st.lastRefill);
      && total * NANOS_PER_SECOND + Credit(after) + Lost(cfg, st, trace) <= supply
      && (alone ==> total * NANOS_PER_SECOND + Credit(after) + Lost(cfg, st, trace) == supply)
  {
    GrantsAreExact(cfg, st, trace);
  }

  // `sleep` is how long a caller with a refused request sleeps.
  ghost predicate IsSleep(cfg: BucketConfig, st: BucketState, tokens: nat, sleep: nat) {
    && ValidConfig(cfg) && ValidState(cfg, st) && st.availableTokens < tokens
    && sleep == ClampedSleep(WaitNanos(cfg, st, tokens))
  }

  // When attempt `i` is made: the first at `start`, the others when the sleep
  // after the refusal before, and its delay, are over.
  function DueAt(readings: seq<nat>, sleeps: seq<nat>, start: nat, late: nat -> nat, i: nat): nat
    requires i <= |readings| && i <= |sleeps|
  {
    if i == 0 then start else readings[i - 1] + sleeps[i - 1] + late(i - 1)
  }

  predicate OnTime(readings: seq<nat>, sleeps: seq<nat>, start: nat, late: nat -> nat, i: nat)
    requires i < |readings| && i <= |sleeps|
  {
    readings[i] == DueAt(readings, sleeps, start, late, i)
  }

  // The sleep after attempt `i` is for what was missing then.
  ghost predicate SleepsEnough(cfg: BucketConfig, states: seq<BucketState>, tokens: nat, sleeps: seq<nat>, i: nat)
    requires i < |sleeps| && i + 1 < |states|
  {
    IsSleep(cfg, states[i + 1], tokens, sleeps[i])
  }

  // The attempts at their times, each after a sleep for what was missing, and
  // when the caller is back: right after a grant, or else when the next attempt
  // is due.
  ghost predicate Spaced(cfg: BucketConfig, states: seq<BucketState>, tokens: nat, readings: seq<nat>,
                         sleeps: seq<nat>, start: nat, late: nat -> nat, granted: bool, end: nat) {
    && |states| == |readings| + 1
    && |readings| == |sleeps| + (if granted then 1 else 0)
    && (forall i :: 0 <= i < |readings| ==> OnTime(readings, sleeps, start, late, i))
    && (forall i :: 0 <= i < |sleeps| ==> SleepsEnough(cfg, states, tokens, sleeps, i))
    && end == if granted then readings[|readings| - 1] else DueAt(readings, sleeps, start, late, |readings|)
  }

  // An attempt that is granted.
  lemma SpacedGrant(cfg: BucketConfig, states: seq<BucketState>, tokens: nat, readings: seq<nat>,
                    sleeps: seq<nat>, start: nat, late: nat -> nat, now: nat, after: BucketState)
    requires Spaced(cfg, states, tokens, readings, sleeps, start, late, false, now)
    ensures Spaced(cfg, states + [after], tokens, readings + [now], sleeps, start, late, true, now)
  {
    var readings' := readings + [now];
    forall i | 0 <= i < |readings'| ensures OnTime(readings', sleeps, start, late, i) {
      assert i < |readings| ==> OnTime(readings, sleeps, start, late, i);
    }
    forall i | 0 <= i < |sleeps| ensures SleepsEnough(cfg, states + [after], tokens, sleeps, i) {
      assert SleepsEnough(cfg, states, tokens, sleeps, i);
    }
  }

  // An attempt that is refused, and the sleep after it.
  lemma SpacedRefusal(cfg: BucketConfig, states: seq<BucketState>, tokens: nat, readings: seq<nat>,
                      sleeps: seq<nat>, start: nat, late: nat -> nat, now: nat, after: BucketState, sleep: nat)
    requires Spaced(cfg, states, tokens, readings, sleeps, start, late, false, now)
    requires IsSleep(cfg, after, tokens, sleep)
    ensures
      var end := now + sleep + late(|readings|);
      Spaced(cfg, states + [after], tokens, readings + [now], sleeps + [sleep], start, late, false, end)
  {
    var states', readings', sleeps' := states + [after], readings + [now], sleeps + [sleep];
    forall i | 0 <= i < |readings'| ensures OnTime(readings', sleeps', start, late, i) {
      assert i < |readings| ==> OnTime(readings, sleeps, start, late, i);
    }
    forall i | 0 <= i < |sleeps'| ensures SleepsEnough(cfg, states', tokens, sleeps', i) {
      assert i < |sleeps| ==> SleepsEnough(cfg, states, tokens, sleeps, i);
    }
  }

  // The course of one chunk: the states, the readings of the attempts and the
  // sleeps after refusals.
  datatype Log = Log(states: seq<BucketState>, readings: seq<nat>, sleeps: seq<nat>)

  // The rounds of one chunk at their times, from one state to the other.
  ghost predicate Service(cfg: BucketConfig, before: BucketState, log: Log, tokens: nat,
                          competing: seq<seq<Request>>, start: nat, late: nat -> nat,
                          granted: bool, end: nat, after: BucketState) {
    && Rounds(cfg, log.states, tokens, log.readings, competing, granted)
    && Spaced(cfg, log.states, tokens, log.readings, log.sleeps, start, late, granted, end)
    && log.states[0] == before && log.states[|log.readings|] == after
  }

  ghost function Logged(log: Log, now: nat, granted: bool, sleep: nat, after: BucketState): Log {
    Log(log.states + [after], log.readings + [now], if granted then log.sleeps else log.sleeps + [sleep])
  }

  lemma ServiceSnoc(cfg: BucketConfig, before: BucketState, log: Log, tokens: nat, competing: seq<seq<Request>>,
                    start: nat, late: nat -> nat, now: nat, mid: BucketState, granted: bool, sleep: nat,
                    after: BucketState)
    requires Service(cfg, before, log, tokens, competing, start, late, false, now, mid)
    requires Round(cfg, mid, Turn(competing, |log.readings|), tokens, now, granted, after)
    requires !granted ==> IsSleep(cfg, after, tokens, sleep)
    ensures
      var end := if granted then now else now + sleep + late(|log.readings|);
      Service(cfg, before, Logged(log, now, granted, sleep, after), tokens, competing, start, late, granted, end, after)
  {
    RoundsSnoc(cfg, log.states, tokens, log.readings, competing, now, granted, after);
    if granted {
      SpacedGrant(cfg, log.states, tokens, log.readings, log.sleeps, start, late, now, after);
    } else {
      SpacedRefusal(cfg, log.states, tokens, log.readings, log.sleeps, start, late, now, after, sleep);
    }
  }

  // `attempts` rounds of one chunk, as some log tells them.
  ghost predicate Served(cfg: BucketConfig, before: BucketState, attempts: nat, tokens: nat,
                         competing: seq<seq<Request>>, start: nat, late: nat -> nat,
                         granted: bool, end: nat, after: BucketState) {
    exists log: Log :: |log.readings| == attempts
      && Service(cfg, before, log, tokens, competing, start, late, granted, end, after)
  }

  lemma ServedBegins(cfg: BucketConfig, st: BucketState, tokens: nat, competing: seq<seq<Request>>, start: nat,
                     late: nat -> nat)
    ensures Served(cfg, st, 0, tokens, competing, start, late, false, start, st)
  {
    var log := Log([st], [], []);
    assert Service(cfg, st, log, tokens, competing, start, late, false, start, st);
  }

  lemma ServedSnoc(cfg: BucketConfig, before: BucketState, attempts: nat, tokens: nat, competing: seq<seq<Request>>,
                   start: nat, late: nat -> nat, now: nat, mid: BucketState, granted: bool, sleep: nat,
                   after: BucketState)
    requires Served(cfg, before, attempts, tokens, competing, start, late, false, now, mid)
    requires Round(cfg, mid, Turn(competing, attempts), tokens, now, granted, after)
    requires !granted ==> IsSleep(cfg, after, tokens, sleep)
    ensures
      var end := if granted then now else now + sleep + late(attempts);
      Served(cfg, before, attempts + 1, tokens, competing, start, late, granted, end, after)
  {
    var log: Log :| |log.readings| == attempts
      && Service(cfg, before, log, tokens, competing, start, late, false, now, mid);
    ServiceSnoc(cfg, before, log, tokens, competing, start, late, now, mid, granted, sleep, after);
    assert |Logged(log, now, granted, sleep, after).readings| == attempts + 1;
  }

  // Check `i` finds the bucket stopped.
  predicate FindsStop(stopAt: Option<StopTime>, i: nat) {
    match stopAt
    case None => false
    case Some(BeforeCheck(j)) => j <= i
    case Some(AfterCheck(j)) => j < i
  }

  // After `attempts` attempts none has found the bucket stopped, and it is so
  // only if it was from the start or the stop came after the latest check.
  predicate StoppedSince(stopAt: Option<StopTime>, was: bool, stopped: bool, attempts: nat) {
    if attempts == 0 then stopped == was
    else
      && !was && !FindsStop(stopAt, attempts - 1)
      && (stopped <==> stopAt == Some(AfterCheck(attempts - 1)))
  }

  // How `attempts` attempts ended: the next check found the bucket stopped, or
  // none did.
  predicate StopOutcome(stopAt: Option<StopTime>, was: bool, stopped: bool, attempts: nat, found: bool) {
    if found then
      && stopped && (was || FindsStop(stopAt, attempts))
      && (attempts > 0 ==> !was && !FindsStop(stopAt, attempts - 1))
    else StoppedSince(stopAt, was, stopped, attempts)
  }

  lemma NextCheck(stopAt: Option<StopTime>, was: bool, stopped: bool, attempts: nat)
    requires StoppedSince(stopAt, was, stopped, attempts)
    ensures
      if stopped || stopAt == Some(BeforeCheck(attempts)) then StopOutcome(stopAt, was, true, attempts, true)
      else StoppedSince(stopAt, was, stopAt == Some(AfterCheck(attempts)), attempts + 1)
  {
  }

  // A log of more than two attempts has a second one, refused.
  lemma FirstTwoRounds(cfg: BucketConfig, before: BucketState, log: Log, tokens: nat, start: nat, late: nat -> nat,
                       granted: bool, end: nat, after: BucketState)
    requires Service(cfg, before, log, tokens, [], start, late, granted, end, after) && |log.readings| > 2
    ensures !Attempt(cfg, before, tokens, start).1
    ensures
      var refused := Attempt(cfg, before, tokens, start).0;
      && IsSleep(cfg, refused, tokens, log.sleeps[0])
      && !Attempt(cfg, refused, tokens, start + log.sleeps[0] + late(0)).1
  {
    assert Round(cfg, log.states[0], Turn([], 0), tokens, log.readings[0], false, log.states[1]);
    assert Round(cfg, log.states[1], Turn([], 1), tokens, log.readings[1], false, log.states[2]);
    assert OnTime(log.readings, log.sleeps, start, late, 0);
    assert OnTime(log.readings, log.sleeps, start, late, 1);
    assert SleepsEnough(cfg, log.states, tokens, log.sleeps, 0);
  }

  // If nobody else asks and one sleep is enough, there are at most two attempts.
  lemma AtMostOneSleep(cfg: BucketConfig, before: BucketState, attempts: nat, tokens: nat, start: nat,
                       late: nat -> nat, granted: bool, end: nat, after: BucketState)
    requires ValidConfig(cfg) && ValidState(cfg, before) && tokens <= cfg.capacity
    requires Served(cfg, before, attempts, tokens, [], start, late, granted, end, after)
    ensures OneSleepIsEnough(cfg, before, tokens, start) ==> attempts <= 2
  {
    var log: Log :| |log.readings| == attempts
      && Service(cfg, before, log, tokens, [], start, late, granted, end, after);
    if attempts > 2 && OneSleepIsEnough(cfg, before, tokens, start) {
      FirstTwoRounds(cfg, before, log, tokens, start, late, granted, end, after);
      SecondAttemptSucceeds(cfg, before, tokens, start, start + log.sleeps[0] + late(0));
    }
  }

  // A refusal at `now`, the next attempt being due at `end`: the clock is closer
  // to the last refill, or ahead of it, or there is more credit.
  ghost predicate Progress(cfg: BucketConfig, before: BucketState, now: nat, after: BucketState, end: nat) {
    && now < end
    && Credit(after) < cfg.capacity * NANOS_PER_SECOND
    && (if now <= before.lastRefill then after == before
        else after.lastRefill == now && Credit(before) < Credit(after))
  }

  // The bucket behind its lock.
  class Bucket {
    const config: BucketConfig
    var availableTokens: nat
    var lastRefill: nat
    var refillRemainder: nat
    var stopped: bool

    ghost function State(): BucketState
      reads this
    {
      BucketState(availableTokens, lastRefill, refillRemainder)
    }

    ghost predicate Valid()
      reads this
    {
      ValidConfig(config) && ValidState(config, State())
    }

    constructor FromConfig(cfg: BucketConfig, now: nat)
      requires cfg.capacity <= U64_MAX && cfg.fillRate <= U64_MAX
      ensures Valid() && !stopped
      ensures config == BucketConfig(Max(cfg.capacity, 1), Max(cfg.fillRate, 1))
      ensures State() == BucketState(config.capacity, now, 0)
    {
      config := BucketConfig(Max(cfg.capacity, 1), Max(cfg.fillRate, 1));
      availableTokens := Max(cfg.capacity, 1);
      lastRefill := now;
      refillRemainder := 0;
      stopped := false;
    }

    // The lazy refill with its saturating arithmetic meets the specification.
    method Refill(now: nat)
      requires Valid()
      modifies `availableTokens, `lastRefill, `refillRemainder
      ensures Valid()
      ensures State() == Refilled(config, old(State()), now)
    {
      ghost var before := State();
      RefilledCredit(config, before, now);
      CreditBound(config, before);
      var elapsedNanos := SaturatingSub(now, lastRefill);
      if elapsedNanos == 0 {
        return;
      }
      lastRefill := now;
      if availableTokens == config.capacity {
        refillRemainder := 0;
        return;
      }
      var generated := SaturatingAdd(SaturatingMul(config.fillRate, elapsedNanos), refillRemainder);
      var tokensToAdd := generated / NANOS_PER_SECOND;
      var remainder := generated % NANOS_PER_SECOND;
      var availableCapacity := config.capacity - availableTokens;
      SaturationIsInvisible(config, availableCapacity, refillRemainder, elapsedNanos);
      if tokensToAdd >= availableCapacity {
        availableTokens := config.capacity;
        refillRemainder := 0;
      } else {
        availableTokens := availableTokens + tokensToAdd;
        refillRemainder := remainder;
      }
      CreditDeterminesState(config, State(), Refilled(config, before, now));
    }

    method TryConsume(tokens: nat, now: nat) returns (granted: bool)
      requires Valid()
      modifies `availableTokens, `lastRefill, `refillRemainder
      ensures Valid()
      ensures stopped ==> granted && State() == old(State())
      ensures !stopped ==> (State(), granted) == Attempt(config, old(State()), tokens, now)
    {
      if stopped {
        return true;
      }
      if tokens > config.capacity {
        return false;
      }
      Refill(now);
      if availableTokens < tokens {
        return false;
      }
      availableTokens := availableTokens - tokens;
      granted := true;
    }

    // Other callers' turns.
    method Compete(requests: seq<Request>)
      requires Valid() && !stopped
      modifies `availableTokens, `lastRefill, `refillRemainder
      ensures Valid() && State() == Run(config, old(State()), requests).0
    {
      for i := 0 to |requests|
        invariant Valid() && State() == Run(config, old(State()), requests[..i]).0
      {
        RunSnoc(config, old(State()), requests[..i], requests[i]);
        assert requests[..i] + [requests[i]] == requests[..i + 1];
        var _ := TryConsume(requests[i].tokens, requests[i].now);
      }
      assert requests[..|requests|] == requests;
    }

    // The locked section of one attempt, and the sleep after a refusal.
    method AttemptChunk(tokens: nat, now: nat) returns (granted: bool, sleepNanos: nat)
      requires Valid() && tokens <= config.capacity
      modifies `availableTokens, `lastRefill, `refillRemainder
      ensures Valid()
      ensures (State(), granted) == Attempt(config, old(State()), tokens, now)
      ensures !granted ==> availableTokens < tokens && IsSleep(config, State(), tokens, sleepNanos)
    {
      Refill(now);
      if availableTokens >= tokens {
        availableTokens := availableTokens - tokens;
        return true, 0;
      }
      var required := (tokens - availableTokens) * NANOS_PER_SECOND;
      granted, sleepNanos := false, ClampedSleep(DivCeil(required - refillRemainder, config.fillRate));
    }

    // One round and the sleep after a refusal; the bucket may be stopped before
    // the attempt takes the lock, which does not look again.
    method RoundThenSleep(turn: seq<Request>, stops: bool, tokens: nat, now: nat)
      returns (granted: bool, sleepNanos: nat)
      requires Valid() && !stopped && tokens <= config.capacity
      modifies this
      ensures Valid() && stopped == stops
      ensures !granted ==> IsSleep(config, State(), tokens, sleepNanos)
      ensures Round(config, old(State()), turn, tokens, now, granted, State())
      ensures turn == [] && !granted ==> Progress(config, old(State()), now, State(), now + sleepNanos)
    {
      ghost var entry := State();
      Compete(turn);
      if stops {
        Stop();
      }
      granted, sleepNanos := AttemptChunk(tokens, now);
      if !granted && turn == [] {
        RefusalMakesProgress(config, entry, tokens, now);
      }
    }

    // The round of attempt `attempts` and the sleep after a refusal.
    method NextRound(tokens: nat, attempts: nat, now: nat, late: nat -> nat, competing: seq<seq<Request>>, stops: bool,
                     ghost before: BucketState, ghost start: nat)
      returns (granted: bool, end: nat)
      requires Valid() && !stopped && tokens <= config.capacity
      requires Served(config, before, attempts, tokens, competing, start, late, false, now, State())
      modifies this
      ensures Valid() && now <= end && stopped == stops
      ensures Served(config, before, attempts + 1, tokens, competing, start, late, granted, end, State())
      ensures |competing| <= attempts && !granted ==> Progress(config, old(State()), now, State(), end)
    {
      ghost var entry := State();
      var sleepNanos;
      granted, sleepNanos := RoundThenSleep(Turn(competing, attempts), stops, tokens, now);
      ServedSnoc(config, before, attempts, tokens, competing, start, late, now, entry, granted, sleepNanos, State());
      end := if granted then now else now + sleepNanos + late(attempts);
    }

    // The check of attempt `attempts`, before which the bucket may be stopped,
    // and unless it finds the bucket stopped the round.
    method CheckThenRound(tokens: nat, attempts: nat, now: nat, late: nat -> nat, competing: seq<seq<Request>>,
                          stopAt: Option<StopTime>, ghost before: BucketState, ghost start: nat, ghost was: bool)
      returns (found: bool, granted: bool, end: nat, done: nat)
      requires Valid() && tokens <= config.capacity && StoppedSince(stopAt, was, stopped, attempts)
      requires Served(config, before, attempts, tokens, competing, start, late, false, now, State())
      modifies this
      ensures Valid() && now <= end
      ensures done == (if found then attempts else attempts + 1) && (found ==> !granted)
      ensures StopOutcome(stopAt, was, stopped, done, found)
      ensures Served(config, before, done, tokens, competing, start, late, granted, end, State())
      ensures |competing| <= attempts && !granted && !found ==> Progress(config, old(State()), now, State(), end)
    {
      NextCheck(stopAt, was, stopped, attempts);
      if stopAt == Some(BeforeCheck(attempts)) {
        Stop();
      }
      found, granted, end, done := stopped, false, now, attempts;
      if !found {
        done := attempts + 1;
        var stops := stopAt == Some(AfterCheck(attempts));
        granted, end := NextRound(tokens, attempts, now, late, competing, stops, before, start);
      }
    }

    // One chunk. Before attempt `i` the other callers have their turn
    // competing[i], and the bucket is stopped if stopAt says so; sleep `i` ends
    // late(i) nanoseconds after the requested duration. The chunk is charged
    // once, at the last attempt, unless a check finds the bucket stopped; a stop
    // after the last check comes too late. Once the others have had their turns
    // it is served; alone, after at most one sleep.
    method ConsumeChunk(
      tokens: nat, start: nat, late: nat -> nat, competing: seq<seq<Request>>, stopAt: Option<StopTime>)
      returns (granted: bool, attempts: nat, end: nat)
      requires Valid() && tokens <= config.capacity
      modifies this
      ensures Valid() && start <= end
      ensures (granted ==> attempts > 0) && StopOutcome(stopAt, old(stopped), stopped, attempts, !granted)
      ensures Served(config, old(State()), attempts, tokens, competing, start, late, granted, end, State())
      ensures competing == [] && old(OneSleepIsEnough(config, State(), tokens, start)) ==> attempts <= 2
    {
      ghost var before := State();
      granted, attempts, end := AttemptUntilDone(tokens, start, late, competing, stopAt);
      if competing == [] {
        AtMostOneSleep(config, before, attempts, tokens, start, late, granted, end, State());
      }
    }

    // The loop of attempts.
    method AttemptUntilDone(
      tokens: nat, start: nat, late: nat -> nat, competing: seq<seq<Request>>, stopAt: Option<StopTime>)
      returns (granted: bool, attempts: nat, end: nat)
      requires Valid() && tokens <= config.capacity
      modifies this
      ensures Valid() && start <= end
      ensures (granted ==> attempts > 0) && StopOutcome(stopAt, old(stopped), stopped, attempts, !granted)
      ensures Served(config, old(State()), attempts, tokens, competing, start, late, granted, end, State())
    {
      ghost var before := State();
      var found := false;
      end, attempts, granted := start, 0, false;
      ServedBegins(config, before, tokens, competing, start, late);
      while !found && !granted
        invariant Valid() && start <= end && (granted ==> attempts > 0) && !(found && granted)
        invariant StopOutcome(stopAt, old(stopped), stopped, attempts, found)
        invariant Served(config, before, attempts, tokens, competing, start, late, granted, end, State())
        decreases !found && !granted, SaturatingSub(|competing|, attempts), SaturatingSub(lastRefill, end),
                  end <= lastRefill, SaturatingSub(config.capacity * NANOS_PER_SECOND, Credit(State()))
      {
        found, granted, end, attempts :=
          CheckThenRound(tokens, attempts, end, late, competing, stopAt, before, start, old(stopped));
      }
    }

    // One more chunk, as one more stretch of everyone's requests.
    method ServeChunk(
      tokens: nat, start: nat, late: nat -> nat, competing: seq<seq<Request>>, stopAt: Option<StopTime>,
      ghost chain: Chain, ghost alone: bool)
      returns (granted: bool, attempts: nat, end: nat, ghost chain': Chain)
      requires Valid() && tokens <= config.capacity
      requires Chained(config, chain, alone) && Last(chain) == State() && (alone ==> competing == [])
      modifies this
      ensures Valid() && start <= end
      ensures (granted || stopped) && (stopAt.None? ==> stopped == old(stopped))
      ensures Chained(config, chain', alone) && First(chain') == First(chain) && Last(chain') == State()
      ensures Total(chain') == Total(chain) + if granted then tokens else 0
    {
      ghost var before := State();
      granted, attempts, end := ConsumeChunk(tokens, start, late, competing, stopAt);
      ghost var log: Log :| |log.readings| == attempts
        && Service(config, before, log, tokens, competing, start, late, granted, end, State());
      RoundsAreARun(config, log.states, tokens, log.readings, competing, granted);
      ghost var trace, amount := Interleaved(tokens, log.readings, competing), if granted then tokens else 0;
      chain' := Extended(chain, trace, amount, State());
      ChainedSnoc(config, chain, trace, amount, alone, State());
    }

    // The loop over the chunks.
    method ConsumeInChunks(
      tokens: nat, start: nat, late: nat -> nat, competing: seq<seq<Request>>, stopAt: Option<StopTime>)
      returns (end: nat, chunks: seq<nat>, ghost chain: Chain)
      requires Valid()
      modifies this
      ensures Valid() && start <= end
      ensures Sum(chunks) <= tokens && (!stopped ==> Sum(chunks) == tokens)
      ensures stopAt.None? ==> stopped == old(stopped)
      ensures Chunked(chunks, config.capacity)
      ensures Chained(config, chain, competing == []) && First(chain) == old(State()) && Last(chain) == State()
      ensures Total(chain) == Sum(chunks)
    {
      ghost var before := State();
      chain := Chain([before], [], []);
      end, chunks := start, [];
      var remaining: nat, tries: nat := tokens, 0;
      while remaining > 0
        invariant Valid() && start <= end
        invariant remaining <= tokens && Sum(chunks) <= tokens - remaining
        invariant !stopped ==> Sum(chunks) == tokens - remaining
        invariant stopAt.None? ==> stopped == old(stopped)
        invariant Chunked(chunks, config.capacity)
        invariant remaining > 0 && !stopped ==> forall c :: c in chunks ==> c == config.capacity
        invariant Chained(config, chain, competing == []) && First(chain) == before && Last(chain) == State()
        invariant Total(chain) == Sum(chunks)
        decreases remaining
      {
        if stopped {
          break;
        }
        var chunk, done := Min(remaining, config.capacity), tries;
        var granted, attempts;
        granted, attempts, end, chain := ServeChunk(
          chunk, end, i => late(done + i), competing[Min(done, |competing|)..], StopAfter(stopAt, done), chain,
          competing == []);
        tries := tries + attempts;
        remaining := remaining - chunk;
        if granted {
          SumSnoc(chunks, chunk);
          ChunkedSnoc(chunks, chunk, config.capacity);
          chunks := chunks + [chunk];
        }
      }
    }

    // The requested total is charged in chunks no larger than capacity, with
    // other callers' turns in between; what is granted to all is covered by the
    // credit at the start and the time that has passed.
    method Consume(
      tokens: nat, start: nat, late: nat -> nat, competing: seq<seq<Request>>, stopAt: Option<StopTime>)
      returns (end: nat, chunks: seq<nat>, ghost trace: seq<Request>)
      requires Valid()
      modifies this
      ensures Valid() && start <= end
      ensures Sum(chunks) <= tokens && (!stopped ==> Sum(chunks) == tokens)
      ensures stopAt.None? ==> stopped == old(stopped)
      ensures Chunked(chunks, config.capacity)
      ensures Grants(config, old(State()), trace, Sum(chunks), competing == [], State())
      ensures
        var used := Sum(chunks) * NANOS_PER_SECOND + Credit(State()) + Lost(config, old(State()), trace);
        var supply := old(Credit(State())) + config.fillRate * (lastRefill - old(lastRefill));
        used <= supply && (competing == [] ==> used == supply)
    {
      ghost var before := State();
      ghost var chain;
      end, chunks, chain := ConsumeInChunks(tokens, start, late, competing, stopAt);
      trace := Flatten(chain.traces);
      ChainGrants(config, chain, competing == []);
      GrantsCovered(config, before, trace, Sum(chunks), competing == [], State());
    }

    method Stop()
      modifies `stopped
      ensures stopped
    {
      stopped := true;
    }
  }
}
