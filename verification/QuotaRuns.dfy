/** What the governor owes its callers: when a request is granted, and what rate it sustains. */
module QuotaRuns {
  import opened Common
  import opened QuotaModel

  // ---------------------------------------------------------------- rates and reserves

  /** The reserve is the fraction of the limit, rounded toward zero. */
  lemma ReserveIsTruncated(plan: Plan)
    requires plan.monthlyLimit.Some?
    ensures var share := plan.monthlyLimit.value as real * plan.reserveFraction;
            && (share >= 0.0 ==> 0 <= Reserve(plan) && Reserve(plan) as real <= share < Reserve(plan) as real + 1.0)
            && (share <= 0.0 ==> 0 >= Reserve(plan) && Reserve(plan) as real >= share > Reserve(plan) as real - 1.0)
  {
  }

  /**
   * A plan that is not paced refills at its own rate. Over a whole month a paced one earns what
   * its own rate would earn, or exactly its allowance for the month if that is less.
   */
  lemma MonthlyEarnings(plan: Plan, critical: bool, days: nat)
    requires days > 0
    ensures var month := days as real * 86400.0;
            var own := plan.requestsPerMinute as real * (days as real * 1440.0);
            if plan.monthlyLimit.None? || !plan.paceMonthly then
              Earned(month, EffectiveRpm(plan, critical, days)) == own
            else
              var allowance := Max(1, if critical then plan.monthlyLimit.value
                                      else plan.monthlyLimit.value - Reserve(plan));
              Earned(month, EffectiveRpm(plan, critical, days)) == MinReal(own, allowance as real)
  {
    assert (days * 1440) as real == days as real * 1440.0;
    if plan.monthlyLimit.Some? && plan.paceMonthly {
      var allowance := Max(1, plan.monthlyLimit.value - (if critical then 0 else Reserve(plan)));
      PacedMonth(plan.requestsPerMinute as real, allowance as real, days as real);
    } else {
      OwnMonth(plan.requestsPerMinute as real, days as real);
    }
  }

  lemma OwnMonth(rate: real, days: real)
    ensures Earned(days * 86400.0, rate) == rate * (days * 1440.0)
  {
  }

  lemma PacedMonth(own: real, allowance: real, days: real)
    requires days > 0.0
    ensures Earned(days * 86400.0, MinReal(own, allowance / (days * 1440.0)))
            == MinReal(own * (days * 1440.0), allowance)
  {
    var minutes := days * 1440.0;
    OwnMonth(MinReal(own, allowance / minutes), days);
    Quotient(allowance, minutes);
    Scaled(own, allowance / minutes, minutes);
  }

  lemma Quotient(x: real, y: real)
    requires y > 0.0
    ensures x / y * y == x
  {
  }

  lemma Scaled(x: real, y: real, z: real)
    requires z > 0.0
    ensures MinReal(x, y) * z == MinReal(x * z, y * z)
  {
    if x <= y {
      assert x * z <= y * z;
    } else {
      assert x * z >= y * z;
    }
  }

  // ---------------------------------------------------------------- one request

  /** Nothing but the bucket can refuse the request. */
  predicate Admissible(g: Governor, critical: bool, month: string) {
    var plan := g.bucket.plan;
    && (plan.billable ==> g.allowBillable)
    && (plan.monthlyLimit.Some? ==>
          (if month in g.usage then g.usage[month] else 0)
          < plan.monthlyLimit.value - (if critical then 0 else Reserve(plan)))
  }

  /**
   * A request is granted exactly when its plan may be billed and has calls left this month, the
   * announced backoff is over, and the tokens at the last update and those earned since make one.
   */
  lemma GrantedExactly(g: Governor, critical: bool, month: string, days: nat, now: real)
    requires days > 0
    ensures var b := g.bucket;
            Grants(g, Event(now, Request(critical, month, days))) <==>
              && Admissible(g, critical, month) && b.unavailableUntil <= now
              && b.tokens + Earned(if now <= b.updated then 0.0 else now - b.updated,
                                   EffectiveRpm(b.plan, critical, days)) >= 1.0
  {
    RefillReaches(g.bucket, now, EffectiveRpm(g.bucket.plan, critical, days));
    OnlyBucketRefuses(g, critical, month, days, now);
  }

  lemma RefillReaches(b: Bucket, now: real, rate: real)
    ensures Refill(b, now, rate).tokens >= 1.0 <==>
              b.tokens + Earned(if now <= b.updated then 0.0 else now - b.updated, rate) >= 1.0
  {
  }

  lemma OnlyBucketRefuses(g: Governor, critical: bool, month: string, days: nat, now: real)
    requires days > 0
    ensures Grants(g, Event(now, Request(critical, month, days))) <==>
              && Admissible(g, critical, month) && g.bucket.unavailableUntil <= now
              && Refill(g.bucket, now, EffectiveRpm(g.bucket.plan, critical, days)).tokens >= 1.0
  {
  }

  /** A grant costs one token of the refilled bucket. */
  lemma GrantCosts(g: Governor, critical: bool, month: string, days: nat, now: real)
    requires days > 0 && Grants(g, Event(now, Request(critical, month, days)))
    ensures var b := Next(g, Event(now, Request(critical, month, days))).bucket;
            var refilled := Refill(g.bucket, now, EffectiveRpm(g.bucket.plan, critical, days));
            b == refilled.(tokens := refilled.tokens - 1.0)
  {
  }

  // ---------------------------------------------------------------- sustained service

  /** Requests under one plan, each at least as long after its predecessor as one token takes to earn. */
  predicate Spaced(plan: Plan, trace: seq<Event>, from: real)
    decreases |trace|
  {
    trace == [] ||
    (&& trace[0].step.Request? && Proper(trace[0].step)
     && var rate := EffectiveRpm(plan, trace[0].step.critical, trace[0].step.days);
        rate > 0.0 && trace[0].at >= from + 60.0 / rate && Spaced(plan, trace[1..], trace[0].at))
  }

  /** Along the trace a request is granted exactly when it is admissible. */
  predicate ServesAll(g: Governor, trace: seq<Event>)
    requires forall i :: 0 <= i < |trace| ==> trace[i].step.Request? && Proper(trace[i].step)
    decreases |trace|
  {
    trace == [] ||
    (&& (Grants(g, trace[0]) <==> Admissible(g, trace[0].step.critical, trace[0].step.month))
     && ServesAll(Next(g, trace[0]), trace[1..]))
  }

  /** Earning for the time one token takes gives at least one token. */
  lemma OneToken(elapsed: real, rate: real)
    requires rate > 0.0 && elapsed >= 60.0 / rate
    ensures Earned(elapsed, rate) >= 1.0
  {
    assert 60.0 / rate * (rate / 60.0) == 1.0;
    assert (elapsed - 60.0 / rate) * (rate / 60.0) >= 0.0;
  }

  lemma RefillsOne(b: Bucket, now: real, rate: real)
    requires rate > 0.0 && b.tokens >= 0.0 && now >= b.updated + 60.0 / rate
    ensures Refill(b, now, rate).tokens >= 1.0
  {
    OneToken(now - b.updated, rate);
    assert 60.0 / rate > 0.0;
    RefillReaches(b, now, rate);
  }

  lemma SpacedRequests(plan: Plan, trace: seq<Event>, from: real)
    requires Spaced(plan, trace, from)
    ensures forall i :: 0 <= i < |trace| ==> trace[i].step.Request? && Proper(trace[i].step)
    decreases |trace|
  {
    if trace != [] {
      SpacedRequests(plan, trace[1..], trace[0].at);
      forall i | 0 <= i < |trace| ensures trace[i].step.Request? && Proper(trace[i].step) {
        assert i > 0 ==> trace[1..][i - 1] == trace[i];
      }
    }
  }

  /**
   * Sustained service: a provider out of backoff grants every request that keeps the pace of its
   * plan until the month's calls are spent; a critical request also inside the reserve.
   */
  lemma {:induction false} PaceIsServed(g: Governor, trace: seq<Event>, from: real)
    requires Spaced(g.bucket.plan, trace, from)
    requires g.bucket.tokens >= 0.0 && g.bucket.updated <= from && g.bucket.unavailableUntil <= from
    ensures forall i :: 0 <= i < |trace| ==> trace[i].step.Request? && Proper(trace[i].step)
    ensures ServesAll(g, trace)
    decreases |trace|
  {
    SpacedRequests(g.bucket.plan, trace, from);
    if trace != [] {
      var e := trace[0];
      var rate := EffectiveRpm(g.bucket.plan, e.step.critical, e.step.days);
      assert 60.0 / rate > 0.0;
      OnlyBucketRefuses(g, e.step.critical, e.step.month, e.step.days, e.at);
      RefillsOne(g.bucket, e.at, rate);
      NextIsReady(g, e);
      PaceIsServed(Next(g, e), trace[1..], e.at);
    }
  }

  /** Without a monthly limit that is every request of the trace. */
  lemma {:induction false} PaceCounts(g: Governor, trace: seq<Event>, from: real, to: real)
    requires Spaced(g.bucket.plan, trace, from) && Ordered(trace, from, to)
    requires g.bucket.tokens >= 0.0 && g.bucket.updated <= from && g.bucket.unavailableUntil <= from
    requires g.bucket.plan.monthlyLimit.None? && (g.bucket.plan.billable ==> g.allowBillable)
    ensures Granted(g, trace, from, to) == |trace|
    decreases |trace|
  {
    PaceIsServed(g, trace, from);
    if trace == [] {
    } else {
      NextIsReady(g, trace[0]);
      PaceCounts(Next(g, trace[0]), trace[1..], trace[0].at, to);
    }
  }

  lemma NextIsReady(g: Governor, e: Event)
    requires e.step.Request? && Proper(e.step) && g.bucket.tokens >= 0.0 && g.bucket.updated <= e.at
    requires EffectiveRpm(g.bucket.plan, e.step.critical, e.step.days) >= 0.0
    ensures var b := Next(g, e).bucket;
            && b.plan == g.bucket.plan && b.tokens >= 0.0 && b.updated <= e.at
            && b.unavailableUntil == g.bucket.unavailableUntil
  {
    assert Earned(e.at - g.bucket.updated, EffectiveRpm(g.bucket.plan, e.step.critical, e.step.days)) >= 0.0;
  }

  // ---------------------------------------------------------------- bursts

  /** `n` requests of the same kind at one instant. */
  function Together(at: real, critical: bool, month: string, days: nat, n: nat): (trace: seq<Event>)
    requires days > 0
    ensures |trace| == n && forall i :: 0 <= i < n ==> trace[i] == Event(at, Request(critical, month, days))
  {
    seq(n, _ => Event(at, Request(critical, month, days)))
  }

  lemma RefillAtOnce(b: Bucket, rate: real)
    requires b.tokens <= Capacity(b.plan, rate)
    ensures Refill(b, b.updated, rate) == b
  {
    assert Earned(0.0, rate) == 0.0;
  }

  lemma {:induction false} TokensAreServed(g: Governor, at: real, critical: bool, month: string, days: nat, n: nat)
    requires days > 0 && g.bucket.updated == at && g.bucket.unavailableUntil <= at
    requires n as real <= g.bucket.tokens <= Capacity(g.bucket.plan, EffectiveRpm(g.bucket.plan, critical, days))
    ensures ServesAll(g, Together(at, critical, month, days, n))
    decreases n
  {
    if n > 0 {
      var e, trace := Event(at, Request(critical, month, days)), Together(at, critical, month, days, n);
      GrantedExactly(g, critical, month, days, at);
      assert trace[1..] == Together(at, critical, month, days, n - 1);
      if Grants(g, e) {
        GrantCosts(g, critical, month, days, at);
        RefillAtOnce(g.bucket, EffectiveRpm(g.bucket.plan, critical, days));
        TokensAreServed(Next(g, e), at, critical, month, days, n - 1);
      } else {
        assert Next(g, e) == g;
        TokensAreServed(g, at, critical, month, days, n - 1);
      }
    }
  }

  lemma EarnedInTwoSeconds(elapsed: real, rate: real)
    requires rate > 0.0 && elapsed >= 2.0
    ensures Earned(elapsed, rate) >= rate / 30.0
  {
    assert (elapsed - 2.0) * (rate / 60.0) >= 0.0;
  }

  /**
   * After two idle seconds, or the time one token takes if that is longer, two seconds of traffic
   * (at least one request) are granted at once while the month's calls last.
   */
  lemma BurstIsServed(g: Governor, at: real, critical: bool, month: string, days: nat, n: nat)
    requires days > 0 && g.bucket.tokens >= 0.0 && g.bucket.unavailableUntil <= at
    requires var rate := EffectiveRpm(g.bucket.plan, critical, days);
             && rate > 0.0 && at >= g.bucket.updated + MaxReal(2.0, 60.0 / rate)
             && n as real <= MaxReal(1.0, rate / 30.0)
    ensures ServesAll(g, Together(at, critical, month, days, n))
  {
    if !Admissible(g, critical, month) {
      NeverServed(g, at, critical, month, days, n);
    } else if n > 0 {
      FirstOfBurst(g, at, critical, month, days);
      assert Together(at, critical, month, days, n)[1..] == Together(at, critical, month, days, n - 1);
      TokensAreServed(Next(g, Event(at, Request(critical, month, days))), at, critical, month, days, n - 1);
    }
  }

  /** A bucket idle for two seconds, or for one token if that takes longer, is full. */
  lemma RefillFills(b: Bucket, now: real, rate: real)
    requires 0.0 < rate <= b.plan.requestsPerMinute as real && b.tokens >= 0.0
    requires now - b.updated >= 2.0 && now - b.updated >= 60.0 / rate
    ensures Refill(b, now, rate).tokens == Capacity(b.plan, rate) >= MaxReal(1.0, rate / 30.0)
  {
    var earned := Earned(now - b.updated, rate);
    OneToken(now - b.updated, rate);
    EarnedInTwoSeconds(now - b.updated, rate);
    assert earned >= Capacity(b.plan, rate);
  }

  lemma FirstOfBurst(g: Governor, at: real, critical: bool, month: string, days: nat)
    requires days > 0 && g.bucket.tokens >= 0.0 && g.bucket.unavailableUntil <= at && Admissible(g, critical, month)
    requires var rate := EffectiveRpm(g.bucket.plan, critical, days);
             rate > 0.0 && at >= g.bucket.updated + MaxReal(2.0, 60.0 / rate)
    ensures var e, rate := Event(at, Request(critical, month, days)), EffectiveRpm(g.bucket.plan, critical, days);
            && Grants(g, e) && Next(g, e).bucket.plan == g.bucket.plan && Next(g, e).bucket.updated == at
            && Next(g, e).bucket.unavailableUntil == g.bucket.unavailableUntil
            && Next(g, e).bucket.tokens == Capacity(g.bucket.plan, rate) - 1.0 >= MaxReal(1.0, rate / 30.0) - 1.0
  {
    EffectiveAtMost(g.bucket.plan, critical, days);
    RefillFills(g.bucket, at, EffectiveRpm(g.bucket.plan, critical, days));
    OnlyBucketRefuses(g, critical, month, days, at);
    GrantCosts(g, critical, month, days, at);
  }

  lemma {:induction false} NeverServed(g: Governor, at: real, critical: bool, month: string, days: nat, n: nat)
    requires days > 0 && !Admissible(g, critical, month)
    ensures ServesAll(g, Together(at, critical, month, days, n))
    decreases n
  {
    if n > 0 {
      assert Together(at, critical, month, days, n)[1..] == Together(at, critical, month, days, n - 1);
      assert Next(g, Event(at, Request(critical, month, days))) == g;
      NeverServed(g, at, critical, month, days, n - 1);
    }
  }

  /** A provider that was just listed serves its two seconds of routine traffic at once. */
  lemma NewServesAtOnce(
    plan: Plan, allowBillable: bool, usage: map<string, nat>, at: real, month: string, days: nat, n: nat)
    requires days > 0 && at >= 0.0
    requires var rate := EffectiveRpm(plan, false, days); rate > 0.0 && n as real <= MaxReal(1.0, rate / 30.0)
    ensures ServesAll(Governor(NewBucket(plan, days, at), allowBillable, usage), Together(at, false, month, days, n))
  {
    TokensAreServed(Governor(NewBucket(plan, days, at), allowBillable, usage), at, false, month, days, n);
  }

  /**
   * After a provider announced a backoff, the next request is granted exactly when the announced
   * time, at least one second and at most five minutes, is over and one token was earned since.
   */
  lemma AfterBackoffExactly(
    g: Governor, retryAfter: real, at: real, critical: bool, month: string, days: nat, now: real)
    requires days > 0 && at <= now
    ensures var delay := if retryAfter < 1.0 then 1.0 else if retryAfter > 300.0 then 300.0 else retryAfter;
            Grants(Next(g, Event(at, Backoff(retryAfter))), Event(now, Request(critical, month, days))) <==>
              && Admissible(g, critical, month) && now - at >= delay
              && Earned(now - at, EffectiveRpm(g.bucket.plan, critical, days)) >= 1.0
  {
    var h := Next(g, Event(at, Backoff(retryAfter)));
    var rate := EffectiveRpm(g.bucket.plan, critical, days);
    BackedOff(g, retryAfter, at, critical, month);
    EmptyRefill(h.bucket, now, rate);
    OnlyBucketRefuses(h, critical, month, days, now);
  }

  lemma BackedOff(g: Governor, retryAfter: real, at: real, critical: bool, month: string)
    ensures var h := Next(g, Event(at, Backoff(retryAfter)));
            var delay := if retryAfter < 1.0 then 1.0 else if retryAfter > 300.0 then 300.0 else retryAfter;
            && h.bucket == Bucket(g.bucket.plan, 0.0, at, at + delay)
            && Admissible(h, critical, month) == Admissible(g, critical, month)
  {
  }

  lemma EmptyRefill(b: Bucket, now: real, rate: real)
    requires b.tokens == 0.0 && b.updated <= now
    ensures Refill(b, now, rate).tokens >= 1.0 <==> Earned(now - b.updated, rate) >= 1.0
  {
  }

  /** Replanning right after an update loses no token that the new plan's burst can hold. */
  lemma ReplanKeepsTokens(g: Governor, plan: Plan, allow: bool, at: real, month: string, days: nat, n: nat)
    requires days > 0 && g.bucket.unavailableUntil <= at && n as real <= g.bucket.tokens
    requires var rate := EffectiveRpm(plan, false, days); rate > 0.0 && n as real <= MaxReal(1.0, rate / 30.0)
    ensures ServesAll(Next(g, Event(at, Reconfigure(plan, allow, days))), Together(at, false, month, days, n))
  {
    TokensAreServed(Next(g, Event(at, Reconfigure(plan, allow, days))), at, false, month, days, n);
  }
}
