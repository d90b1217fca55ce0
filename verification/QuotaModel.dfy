/** The request governor of one provider: a token bucket, a monthly count and a backoff. */
module QuotaModel {
  import opened Common

  datatype Plan = Plan(
    requestsPerMinute: int,
    monthlyLimit: Option<int>,
    reserveFraction: real,
    billable: bool,
    paceMonthly: bool)

  datatype Bucket = Bucket(plan: Plan, tokens: real, updated: real, unavailableUntil: real)

  /** Conversion to an integer drops the fraction, toward zero. */
  function Truncate(x: real): int {
    if x >= 0.0 then x.Floor else -((-x).Floor)
  }

  function Reserve(plan: Plan): int
    requires plan.monthlyLimit.Some?
  {
    Truncate(plan.monthlyLimit.value as real * plan.reserveFraction)
  }

  /** `days` is the length of the current calendar month. */
  function EffectiveRpm(plan: Plan, critical: bool, days: nat): real
    requires days > 0
  {
    var rpm := plan.requestsPerMinute as real;
    if plan.monthlyLimit.None? || !plan.paceMonthly then rpm
    else
      var reserve := if critical then 0 else Reserve(plan);
      var paced := Max(1, plan.monthlyLimit.value - reserve);
      MinReal(rpm, paced as real / (days * 1440) as real)
  }

  function Capacity(plan: Plan, rate: real): real {
    MaxReal(1.0, MinReal(plan.requestsPerMinute as real, rate / 30.0))
  }

  function NewBucket(plan: Plan, days: nat, now: real): Bucket
    requires days > 0
  {
    Bucket(plan, Capacity(plan, EffectiveRpm(plan, false, days)), now, 0.0)
  }

  /** Tokens earned in some seconds at a rate per minute. */
  function Earned(seconds: real, rpm: real): real {
    seconds * (rpm / 60.0)
  }

  function Refill(b: Bucket, now: real, rpm: real): Bucket {
    var elapsed := MaxReal(0.0, now - b.updated);
    b.(tokens := MinReal(Capacity(b.plan, rpm), b.tokens + Earned(elapsed, rpm)), updated := now)
  }

  function Limit(plan: Plan, critical: bool): int
    requires plan.monthlyLimit.Some?
  {
    if critical then plan.monthlyLimit.value else plan.monthlyLimit.value - Reserve(plan)
  }

  /** Refused before the bucket is looked at. */
  predicate Blocked(b: Bucket, allowBillable: bool, usage: nat, critical: bool, now: real) {
    || (b.plan.billable && !allowBillable)
    || (b.plan.monthlyLimit.Some? && usage >= Limit(b.plan, critical))
    || now < b.unavailableUntil
  }

  datatype Attempt = Attempt(bucket: Bucket, granted: bool)

  function Acquire(b: Bucket, allowBillable: bool, usage: nat, critical: bool, days: nat, now: real): Attempt
    requires days > 0
  {
    if Blocked(b, allowBillable, usage, critical, now) then Attempt(b, false)
    else
      var refilled := Refill(b, now, EffectiveRpm(b.plan, critical, days));
      if refilled.tokens < 1.0 then Attempt(refilled, false)
      else Attempt(refilled.(tokens := refilled.tokens - 1.0), true)
  }

  function Penalize(b: Bucket, retryAfter: real, now: real): Bucket {
    b.(tokens := 0.0, updated := now, unavailableUntil := now + MaxReal(1.0, MinReal(300.0, retryAfter)))
  }

  /** A new plan for a provider that already has a bucket. */
  function Replan(b: Bucket, plan: Plan, days: nat, now: real): Bucket
    requires days > 0
  {
    var full := NewBucket(plan, days, now);
    full.(tokens := MinReal(full.tokens, b.tokens), unavailableUntil := b.unavailableUntil)
  }

  // ---------------------------------------------------------------- runs of one provider

  datatype Step =
    | Request(critical: bool, month: string, days: nat)
    | Backoff(retryAfter: real)
    | Reconfigure(plan: Plan, allowBillable: bool, days: nat)

  datatype Event = Event(at: real, step: Step)

  datatype Governor = Governor(bucket: Bucket, allowBillable: bool, usage: map<string, nat>)

  function Used(g: Governor, month: string): nat {
    if month in g.usage then g.usage[month] else 0
  }

  predicate Proper(step: Step) {
    match step
    case Request(_, _, days) => days > 0
    case Backoff(_) => true
    case Reconfigure(_, _, days) => days > 0
  }

  function Try(g: Governor, e: Event): Attempt
    requires e.step.Request? && Proper(e.step)
  {
    Acquire(g.bucket, g.allowBillable, Used(g, e.step.month), e.step.critical, e.step.days, e.at)
  }

  function Next(g: Governor, e: Event): Governor
    requires Proper(e.step)
  {
    match e.step
    case Request(critical, month, days) =>
      var a := Try(g, e);
      Governor(a.bucket, g.allowBillable, if a.granted then g.usage[month := Used(g, month) + 1] else g.usage)
    case Backoff(retryAfter) => g.(bucket := Penalize(g.bucket, retryAfter, e.at))
    case Reconfigure(plan, allow, days) => Governor(Replan(g.bucket, plan, days, e.at), allow, g.usage)
  }

  predicate Grants(g: Governor, e: Event)
    requires Proper(e.step)
  {
    e.step.Request? && Try(g, e).granted
  }

  /** A trace in clock order, starting no earlier than `from`. */
  predicate Ordered(trace: seq<Event>, from: real, to: real)
    decreases |trace|
  {
    if trace == [] then from <= to
    else from <= trace[0].at && Proper(trace[0].step) && Ordered(trace[1..], trace[0].at, to)
  }

  function Run(g: Governor, trace: seq<Event>, from: real, to: real): Governor
    requires Ordered(trace, from, to)
    decreases |trace|
  {
    if trace == [] then g else Run(Next(g, trace[0]), trace[1..], trace[0].at, to)
  }

  /** Requests granted along a trace. */
  function Granted(g: Governor, trace: seq<Event>, from: real, to: real): nat
    requires Ordered(trace, from, to)
    decreases |trace|
  {
    if trace == [] then 0
    else (if Grants(g, trace[0]) then 1 else 0) + Granted(Next(g, trace[0]), trace[1..], trace[0].at, to)
  }

  // ---------------------------------------------------------------- the rate bound

  /** Two seconds of traffic at `rpm`, and at least one request. */
  function Burst(rpm: nat): real {
    MaxReal(1.0, rpm as real / 30.0)
  }

  predicate Within(g: Governor, rpm: nat) {
    g.bucket.plan.requestsPerMinute <= rpm
  }

  predicate PlansWithin(trace: seq<Event>, rpm: nat) {
    forall i :: 0 <= i < |trace| && trace[i].step.Reconfigure? ==> trace[i].step.plan.requestsPerMinute <= rpm
  }

  lemma EffectiveAtMost(plan: Plan, critical: bool, days: nat)
    requires days > 0
    ensures EffectiveRpm(plan, critical, days) <= plan.requestsPerMinute as real
  {
  }

  lemma CapacityAtMost(plan: Plan, rate: real, rpm: nat)
    requires rate <= plan.requestsPerMinute as real && plan.requestsPerMinute <= rpm
    ensures Capacity(plan, rate) <= Burst(rpm)
  {
  }

  lemma EarnedAtMost(seconds: real, a: real, b: real)
    requires seconds >= 0.0 && a <= b
    ensures Earned(seconds, a) <= Earned(seconds, b)
  {
  }

  lemma EarnedSplit(x: real, y: real, rpm: nat)
    requires x >= 0.0 && y >= 0.0
    ensures Earned(x + y, rpm as real) == Earned(x, rpm as real) + Earned(y, rpm as real)
    ensures Earned(x, rpm as real) >= 0.0 && Earned(y, rpm as real) >= 0.0
  {
  }

  /** An upper bound on the tokens a request at time `t` could find. */
  function Available(g: Governor, t: real, rpm: nat): real {
    MaxReal(0.0, MinReal(Burst(rpm), g.bucket.tokens + Earned(MaxReal(0.0, t - g.bucket.updated), rpm as real)))
  }

  lemma RefillAtMost(g: Governor, critical: bool, days: nat, t: real, rpm: nat)
    requires days > 0 && Within(g, rpm)
    ensures Refill(g.bucket, t, EffectiveRpm(g.bucket.plan, critical, days)).tokens <= Available(g, t, rpm)
  {
    var rate := EffectiveRpm(g.bucket.plan, critical, days);
    EffectiveAtMost(g.bucket.plan, critical, days);
    CapacityAtMost(g.bucket.plan, rate, rpm);
    EarnedAtMost(MaxReal(0.0, t - g.bucket.updated), rate, rpm as real);
  }

  /** Waiting gains at most the rate. */
  lemma AvailableGrows(g: Governor, s: real, t: real, rpm: nat)
    requires s <= t
    ensures Available(g, t, rpm) <= Available(g, s, rpm) + Earned(t - s, rpm as real)
  {
    var x, y := MaxReal(0.0, s - g.bucket.updated), MaxReal(0.0, t - g.bucket.updated);
    EarnedSplit(x, y - x, rpm);
    EarnedSplit(y - x, (t - s) - (y - x), rpm);
    assert x + (y - x) == y && (y - x) + ((t - s) - (y - x)) == t - s;
  }

  /** Right after an update only the tokens themselves count. */
  lemma AvailableNow(g: Governor, rpm: nat)
    ensures Available(g, g.bucket.updated, rpm) == MaxReal(0.0, MinReal(Burst(rpm), g.bucket.tokens))
  {
    assert Earned(0.0, rpm as real) == 0.0;
  }

  lemma RequestSpends(g: Governor, e: Event, rpm: nat)
    requires e.step.Request? && Proper(e.step) && Within(g, rpm)
    ensures (if Grants(g, e) then 1.0 else 0.0) + Available(Next(g, e), e.at, rpm) <= Available(g, e.at, rpm)
  {
    if !Blocked(g.bucket, g.allowBillable, Used(g, e.step.month), e.step.critical, e.at) {
      RefillAtMost(g, e.step.critical, e.step.days, e.at, rpm);
      AvailableNow(Next(g, e), rpm);
    }
  }

  lemma StepSpends(g: Governor, e: Event, rpm: nat)
    requires Proper(e.step) && Within(g, rpm)
    requires e.step.Reconfigure? ==> e.step.plan.requestsPerMinute <= rpm
    ensures Within(Next(g, e), rpm)
    ensures (if Grants(g, e) then 1.0 else 0.0) + Available(Next(g, e), e.at, rpm) <= Available(g, e.at, rpm)
  {
    if e.step.Request? {
      RequestSpends(g, e, rpm);
    } else {
      AvailableNow(Next(g, e), rpm);
      EarnedSplit(MaxReal(0.0, e.at - g.bucket.updated), 0.0, rpm);
    }
  }

  /** Amortised bound from any starting bucket. */
  lemma {:induction false} GrantsFromAvailable(g: Governor, trace: seq<Event>, from: real, to: real, rpm: nat)
    requires Ordered(trace, from, to) && Within(g, rpm) && PlansWithin(trace, rpm)
    ensures Granted(g, trace, from, to) as real <= Available(g, from, rpm) + Earned(to - from, rpm as real)
    decreases |trace|
  {
    OrderedSpan(trace, from, to);
    if trace == [] {
      EarnedSplit(to - from, 0.0, rpm);
    } else {
      var e, rest := trace[0], trace[1..];
      assert forall i :: 0 <= i < |rest| ==> rest[i] == trace[i + 1];
      StepSpends(g, e, rpm);
      GrantsFromAvailable(Next(g, e), rest, e.at, to, rpm);
      OrderedSpan(rest, e.at, to);
      AvailableGrows(g, from, e.at, rpm);
      EarnedSplit(e.at - from, to - e.at, rpm);
      assert (e.at - from) + (to - e.at) == to - from;
    }
  }

  lemma {:induction false} OrderedSpan(trace: seq<Event>, from: real, to: real)
    requires Ordered(trace, from, to)
    ensures from <= to
    decreases |trace|
  {
    if trace == [] {
    } else {
      OrderedSpan(trace[1..], trace[0].at, to);
    }
  }

  /**
   * However requests, backoffs and plan changes of at most `rpm` are mixed, a window of time
   * grants no more than one burst plus the rate times its length.
   */
  lemma RateBound(g: Governor, trace: seq<Event>, from: real, to: real, rpm: nat)
    requires Ordered(trace, from, to) && Within(g, rpm) && PlansWithin(trace, rpm)
    ensures Granted(g, trace, from, to) as real <= Burst(rpm) + Earned(to - from, rpm as real)
  {
    GrantsFromAvailable(g, trace, from, to, rpm);
  }

  // ---------------------------------------------------------------- the monthly cap

  predicate CapsAt(plan: Plan, cap: nat) {
    plan.monthlyLimit.Some? && plan.monthlyLimit.value <= cap && Reserve(plan) >= 0
  }

  predicate PlansCapAt(trace: seq<Event>, cap: nat) {
    forall i :: 0 <= i < |trace| && trace[i].step.Reconfigure? ==> CapsAt(trace[i].step.plan, cap)
  }

  /** Usage of a month stops at the cap, whatever the mix of calls. */
  lemma {:induction false} MonthlyCap(g: Governor, trace: seq<Event>, from: real, to: real, cap: nat, month: string)
    requires Ordered(trace, from, to) && CapsAt(g.bucket.plan, cap) && PlansCapAt(trace, cap)
    ensures Used(Run(g, trace, from, to), month) <= Max(Used(g, month), cap)
    decreases |trace|
  {
    if trace == [] {
    } else {
      var rest := trace[1..];
      assert forall i :: 0 <= i < |rest| ==> rest[i] == trace[i + 1];
      MonthlyCap(Next(g, trace[0]), rest, trace[0].at, to, cap, month);
    }
  }

  predicate RoutineOnly(trace: seq<Event>) {
    forall i :: 0 <= i < |trace| ==> !trace[i].step.Reconfigure? && (trace[i].step.Request? ==> !trace[i].step.critical)
  }

  /** Routine calls alone stop at the cap minus the reserve. */
  lemma {:induction false} RoutineStops(g: Governor, trace: seq<Event>, from: real, to: real, month: string)
    requires Ordered(trace, from, to) && RoutineOnly(trace) && g.bucket.plan.monthlyLimit.Some?
    ensures Used(Run(g, trace, from, to), month) <= Max(Used(g, month), Limit(g.bucket.plan, false))
    decreases |trace|
  {
    if trace == [] {
    } else {
      var rest := trace[1..];
      assert forall i :: 0 <= i < |rest| ==> rest[i] == trace[i + 1];
      RoutineStops(Next(g, trace[0]), rest, trace[0].at, to, month);
    }
  }

  /** No grant under this plan can carry a month past its limit. */
  ghost predicate KeepsCap(plan: Plan)
    requires plan.monthlyLimit.Some?
  {
    forall g: Governor, e: Event :: g.bucket.plan == plan && Proper(e.step) && Grants(g, e) ==>
      Used(Next(g, e), e.step.month) <= plan.monthlyLimit.value
  }

  /** A negative reserve lifts the routine limit above the cap; otherwise the cap holds. */
  lemma KeepsCapExactly(plan: Plan)
    requires plan.monthlyLimit.Some?
    ensures KeepsCap(plan) <==> Limit(plan, false) <= Max(0, plan.monthlyLimit.value)
    ensures plan.monthlyLimit.value >= 0 ==> (KeepsCap(plan) <==> Reserve(plan) >= 0)
  {
    var limit := plan.monthlyLimit.value;
    if Limit(plan, false) > Max(0, limit) {
      var g := Governor(Bucket(plan, 1.0, 0.0, 0.0), true, map["" := Max(0, limit)]);
      var e := Event(0.0, Request(false, "", 31));
      assert Earned(0.0, EffectiveRpm(plan, false, 31)) == 0.0;
      assert Grants(g, e);
      assert Used(Next(g, e), "") == Max(0, limit) + 1;
    }
  }

  /** Grants in a month are exactly the growth of its stored usage. */
  function GrantedIn(g: Governor, trace: seq<Event>, from: real, to: real, month: string): nat
    requires Ordered(trace, from, to)
    decreases |trace|
  {
    if trace == [] then 0
    else
      (if Grants(g, trace[0]) && trace[0].step.month == month then 1 else 0)
      + GrantedIn(Next(g, trace[0]), trace[1..], trace[0].at, to, month)
  }

  lemma {:induction false} UsageCountsGrants(g: Governor, trace: seq<Event>, from: real, to: real, month: string)
    requires Ordered(trace, from, to)
    ensures Used(Run(g, trace, from, to), month) == Used(g, month) + GrantedIn(g, trace, from, to, month)
    decreases |trace|
  {
    if trace == [] {
    } else {
      UsageCountsGrants(Next(g, trace[0]), trace[1..], trace[0].at, to, month);
    }
  }

  // ---------------------------------------------------------------- backoff and new plans

  predicate NoBackoff(trace: seq<Event>) {
    forall i :: 0 <= i < |trace| ==> !trace[i].step.Backoff?
  }

  /** Until the announced time nothing is granted, not even after a new plan. */
  lemma {:induction false} BackoffIsHonoured(g: Governor, trace: seq<Event>, from: real, to: real)
    requires Ordered(trace, from, to) && NoBackoff(trace) && to < g.bucket.unavailableUntil
    ensures Granted(g, trace, from, to) == 0
    decreases |trace|
  {
    if trace == [] {
    } else {
      var rest := trace[1..];
      assert forall i :: 0 <= i < |rest| ==> rest[i] == trace[i + 1];
      OrderedSpan(rest, trace[0].at, to);
      BackoffIsHonoured(Next(g, trace[0]), rest, trace[0].at, to);
    }
  }

  /** Only a shorter second backoff can end the first one early. */
  lemma LaterBackoffReplaces(g: Governor, first: Event, second: Event)
    requires first.step.Backoff? && second.step.Backoff? && first.at <= second.at
    ensures var until := Next(Next(g, first), second).bucket.unavailableUntil;
            && second.at + 1.0 <= until <= second.at + 300.0
            && (second.step.retryAfter >= first.step.retryAfter ==> until >= Next(g, first).bucket.unavailableUntil)
  {
  }

  lemma ReplanAddsNothing(b: Bucket, plan: Plan, days: nat, now: real)
    requires days > 0
    ensures Replan(b, plan, days, now).tokens <= b.tokens
    ensures Replan(b, plan, days, now).tokens <= Capacity(plan, EffectiveRpm(plan, false, days))
    ensures Replan(b, plan, days, now).unavailableUntil == b.unavailableUntil
  {
  }
}
