// What holds over every run of locked attempts on one unstopped bucket, by any
// number of callers, whatever the clock readings.
module TokenBucketRuns {
  import opened Arithmetic
  import opened TokenBucket

  // One locked attempt, by try_consume or by an iteration of consume_chunk.
  datatype Request = Request(tokens: nat, now: nat)

  // The state after the requests and the tokens granted in total.
  ghost function Run(cfg: BucketConfig, st: BucketState, requests: seq<Request>): (r: (BucketState, nat))
    decreases |requests|
  {
    if requests == [] then (st, 0)
    else
      var (next, granted) := Attempt(cfg, st, requests[0].tokens, requests[0].now);
      var (last, rest) := Run(cfg, next, requests[1..]);
      (last, (if granted then requests[0].tokens else 0) + rest)
  }

  lemma {:induction false} RunConcat(cfg: BucketConfig, st: BucketState, a: seq<Request>, b: seq<Request>)
    ensures
      var (mid, first) := Run(cfg, st, a);
      var (last, second) := Run(cfg, mid, b);
      Run(cfg, st, a + b) == (last, first + second)
    decreases |a|
  {
    if a == [] {
      assert a + b == b;
    } else {
      RunConcat(cfg, Attempt(cfg, st, a[0].tokens, a[0].now).0, a[1..], b);
      assert (a + b)[1..] == a[1..] + b;
    }
  }

  lemma RunSnoc(cfg: BucketConfig, st: BucketState, requests: seq<Request>, r: Request)
    ensures
      var (mid, granted) := Run(cfg, st, requests);
      var (last, ok) := Attempt(cfg, mid, r.tokens, r.now);
      Run(cfg, st, requests + [r]) == (last, granted + if ok then r.tokens else 0)
  {
    RunConcat(cfg, st, requests, [r]);
    var mid := Run(cfg, st, requests).0;
    assert Run(cfg, Attempt(cfg, mid, r.tokens, r.now).0, [r][1..]) == (Attempt(cfg, mid, r.tokens, r.now).0, 0);
  }

  lemma AttemptIsCovered(cfg: BucketConfig, st: BucketState, r: Request)
    requires ValidState(cfg, st)
    ensures
      var (next, granted) := Attempt(cfg, st, r.tokens, r.now);
      && ValidState(cfg, next)
      && st.lastRefill <= next.lastRefill <= Max(st.lastRefill, r.now)
      && (if granted then r.tokens else 0) * NANOS_PER_SECOND + Credit(next)
         <= Credit(st) + cfg.fillRate * (next.lastRefill - st.lastRefill)
  {
    RefilledCredit(cfg, st, r.now);
    if r.tokens <= Refilled(cfg, st, r.now).availableTokens {
      ChargeIsCovered(cfg, st, r.tokens, r.now);
    }
  }

  // An attempt is refused exactly when the request is larger than the bucket
  // or than the credit it holds at that reading.
  lemma RefusedIffShort(cfg: BucketConfig, st: BucketState, r: Request)
    requires ValidState(cfg, st)
    ensures !Attempt(cfg, st, r.tokens, r.now).1 <==>
      || r.tokens > cfg.capacity
      || CreditAfter(cfg, Credit(st), SaturatingSub(r.now, st.lastRefill)) < r.tokens * NANOS_PER_SECOND
  {
    RefilledCredit(cfg, st, r.now);
    CreditBound(cfg, Refilled(cfg, st, r.now));
  }

  // The credit that an attempt's refill clips at capacity.
  ghost function Spilled(cfg: BucketConfig, st: BucketState, r: Request): nat {
    if r.tokens > cfg.capacity then 0
    else
      SaturatingSub(Credit(st) + cfg.fillRate * SaturatingSub(r.now, st.lastRefill), cfg.capacity * NANOS_PER_SECOND)
  }

  // The credit clipped over a run.
  ghost function Lost(cfg: BucketConfig, st: BucketState, requests: seq<Request>): nat
    decreases |requests|
  {
    if requests == [] then 0
    else
      Spilled(cfg, st, requests[0])
      + Lost(cfg, Attempt(cfg, st, requests[0].tokens, requests[0].now).0, requests[1..])
  }

  lemma AttemptBalances(cfg: BucketConfig, st: BucketState, r: Request)
    requires ValidState(cfg, st)
    ensures
      var (next, granted) := Attempt(cfg, st, r.tokens, r.now);
      && ValidState(cfg, next) && st.lastRefill <= next.lastRefill
      && (if granted then r.tokens else 0) * NANOS_PER_SECOND + Credit(next) + Spilled(cfg, st, r)
         == Credit(st) + cfg.fillRate * (next.lastRefill - st.lastRefill)
  {
    AttemptIsExact(cfg, st, r.tokens, r.now);
  }

  // Over any run, tokens granted, credit left and credit clipped at capacity
  // are together exactly the initial credit plus rate times elapsed time.
  lemma {:induction false} GrantsAreExact(cfg: BucketConfig, st: BucketState, requests: seq<Request>)
    requires ValidState(cfg, st)
    ensures
      var (last, granted) := Run(cfg, st, requests);
      && ValidState(cfg, last) && st.lastRefill <= last.lastRefill
      && granted * NANOS_PER_SECOND + Credit(last) + Lost(cfg, st, requests)
         == Credit(st) + cfg.fillRate * (last.lastRefill - st.lastRefill)
    decreases |requests|
  {
    if requests != [] {
      AttemptBalances(cfg, st, requests[0]);
      var next := Attempt(cfg, st, requests[0].tokens, requests[0].now).0;
      GrantsAreExact(cfg, next, requests[1..]);
      var last := Run(cfg, next, requests[1..]).0;
      assert cfg.fillRate * (last.lastRefill - st.lastRefill)
          == cfg.fillRate * (last.lastRefill - next.lastRefill) + cfg.fillRate * (next.lastRefill - st.lastRefill);
    }
  }

  // So tokens granted plus final credit never exceed initial credit plus rate
  // times elapsed time.
  lemma GrantsAreCovered(cfg: BucketConfig, st: BucketState, requests: seq<Request>)
    requires ValidState(cfg, st)
    ensures
      var (last, granted) := Run(cfg, st, requests);
      && ValidState(cfg, last)
      && st.lastRefill <= last.lastRefill
      && granted * NANOS_PER_SECOND + Credit(last) <= Credit(st) + cfg.fillRate * (last.lastRefill - st.lastRefill)
  {
    GrantsAreExact(cfg, st, requests);
  }

  ghost predicate Within(requests: seq<Request>, from: nat, to: nat) {
    forall i :: 0 <= i < |requests| ==> from <= requests[i].now <= to
  }

  lemma {:induction false} StampsStayWithin(
    cfg: BucketConfig, st: BucketState, requests: seq<Request>, from: nat, to: nat)
    requires ValidState(cfg, st) && Within(requests, from, to)
    ensures Run(cfg, st, requests).0.lastRefill <= Max(st.lastRefill, to)
    decreases |requests|
  {
    if requests != [] {
      AttemptIsCovered(cfg, st, requests[0]);
      StampsStayWithin(cfg, Attempt(cfg, st, requests[0].tokens, requests[0].now).0, requests[1..], from, to);
    }
  }

  // Refilling before the window opens changes no grant inside it.
  lemma {:induction false} EarlyRefillIsInvisible(
    cfg: BucketConfig, st: BucketState, requests: seq<Request>, from: nat, to: nat)
    requires ValidState(cfg, st) && Within(requests, from, to)
    ensures Run(cfg, Refilled(cfg, st, from), requests).1 == Run(cfg, st, requests).1
    decreases |requests|
  {
    if requests != [] {
      var r := requests[0];
      if r.tokens > cfg.capacity {
        EarlyRefillIsInvisible(cfg, st, requests[1..], from, to);
      } else {
        RefillTwice(cfg, st, from, r.now);
      }
    }
  }

  // In any window of clock time the bucket grants at most its capacity plus
  // rate times the length of the window, in whatever order the readings come.
  lemma WindowRateBound(cfg: BucketConfig, st: BucketState, requests: seq<Request>, from: nat, to: nat)
    requires ValidState(cfg, st) && Within(requests, from, to) && from <= to
    ensures Run(cfg, st, requests).1 * NANOS_PER_SECOND
         <= cfg.capacity * NANOS_PER_SECOND + cfg.fillRate * (to - from)
  {
    var atOpening := Refilled(cfg, st, from);
    RefilledCredit(cfg, st, from);
    CreditBound(cfg, atOpening);
    EarlyRefillIsInvisible(cfg, st, requests, from, to);
    GrantsAreCovered(cfg, atOpening, requests);
    StampsStayWithin(cfg, atOpening, requests, from, to);
    var last := Run(cfg, atOpening, requests).0;
    MulMonotone(cfg.fillRate, last.lastRefill - atOpening.lastRefill, to - from);
  }
}
