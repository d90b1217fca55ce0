/** The broker: one bucket per provider and the stored monthly counts. */
module Quota {
  import opened Common
  import opened QuotaModel

  /** The plan a list of plans finally gives a provider. */
  function LastPlan(plans: seq<(string, Plan)>, name: string): Option<Plan> {
    if plans == [] then None
    else if plans[|plans| - 1].0 == name then Some(plans[|plans| - 1].1)
    else LastPlan(plans[..|plans| - 1], name)
  }

  function Rebuilt(previous: map<string, Bucket>, name: string, plan: Plan, days: nat, now: real): Bucket
    requires days > 0
  {
    if name in previous then Replan(previous[name], plan, days, now) else NewBucket(plan, days, now)
  }

  /** The buckets a reconfiguration should leave. */
  ghost predicate Replanned(
    buckets: map<string, Bucket>, previous: map<string, Bucket>, plans: seq<(string, Plan)>, days: nat, now: real)
    requires days > 0
  {
    forall name: string ::
      && (name in buckets <==> LastPlan(plans, name).Some?)
      && (name in buckets ==> buckets[name] == Rebuilt(previous, name, LastPlan(plans, name).value, days, now))
  }

  method BuildBuckets(previous: map<string, Bucket>, plans: seq<(string, Plan)>, days: nat, now: real)
    returns (buckets: map<string, Bucket>)
    requires days > 0
    ensures Replanned(buckets, previous, plans, days, now)
  {
    buckets := map[];
    for i := 0 to |plans|
      invariant Replanned(buckets, previous, plans[..i], days, now)
    {
      var (name, plan) := plans[i];
      var bucket := NewBucket(plan, days, now);
      if name in previous {
        bucket := bucket.(tokens := MinReal(bucket.tokens, previous[name].tokens),
                          unavailableUntil := previous[name].unavailableUntil);
      }
      assert plans[..i + 1][..i] == plans[..i];
      buckets := buckets[name := bucket];
    }
    assert plans[..|plans|] == plans;
  }

  /** One request against one bucket: authority, monthly limit, backoff, refill, then a token. */
  method Spend(b: Bucket, allowBillable: bool, used: nat, critical: bool, days: nat, now: real)
    returns (bucket: Bucket, granted: bool)
    requires days > 0
    ensures Attempt(bucket, granted) == QuotaModel.Acquire(b, allowBillable, used, critical, days, now)
  {
    bucket := b;
    if bucket.plan.billable && !allowBillable {
      return bucket, false;
    }
    if bucket.plan.monthlyLimit.Some? {
      var limit := Limit(bucket.plan, critical);
      if used >= limit {
        return bucket, false;
      }
    }
    if now < bucket.unavailableUntil {
      return bucket, false;
    }
    bucket := Refill(bucket, now, EffectiveRpm(bucket.plan, critical, days));
    if bucket.tokens < 1.0 {
      return bucket, false;
    }
    bucket := bucket.(tokens := bucket.tokens - 1.0);
    return bucket, true;
  }

  class QuotaBroker {
    var buckets: map<string, Bucket>
    var allowBillable: bool
    var usage: map<string, map<string, nat>>

    function UsageOf(provider: string): map<string, nat>
      reads this
    {
      if provider in usage then usage[provider] else map[]
    }

    ghost function View(provider: string): Governor
      requires provider in buckets
      reads this
    {
      Governor(buckets[provider], allowBillable, UsageOf(provider))
    }

    constructor (plans: seq<(string, Plan)>, allowBillable: bool, days: nat, now: real)
      requires days > 0
      ensures Replanned(buckets, map[], plans, days, now)
      ensures this.allowBillable == allowBillable && usage == map[]
    {
      var built := BuildBuckets(map[], plans, days, now);
      this.buckets, this.allowBillable, this.usage := built, allowBillable, map[];
    }

    method Acquire(provider: string, critical: bool, month: string, days: nat, now: real) returns (granted: bool)
      requires days > 0
      modifies this
      ensures provider !in buckets ==> !granted && unchanged(this)
      ensures allowBillable == old(allowBillable) && buckets.Keys == old(buckets.Keys)
      ensures provider in buckets ==>
                var event := Event(now, Request(critical, month, days));
                granted == Grants(old(View(provider)), event) && View(provider) == Next(old(View(provider)), event)
      ensures forall other :: other in buckets && other != provider ==> View(other) == old(View(other))
    {
      if provider !in buckets {
        return false;
      }
      var months := UsageOf(provider);
      var used := if month in months then months[month] else 0;
      var bucket;
      bucket, granted := Spend(buckets[provider], allowBillable, used, critical, days, now);
      buckets := buckets[provider := bucket];
      if granted {
        usage := usage[provider := months[month := used + 1]];
      }
    }

    method Penalize(provider: string, retryAfter: real, now: real)
      modifies this`buckets
      ensures buckets.Keys == old(buckets.Keys)
      ensures provider in buckets ==> View(provider) == Next(old(View(provider)), Event(now, Backoff(retryAfter)))
      ensures forall other :: other in buckets && other != provider ==> View(other) == old(View(other))
    {
      if provider in buckets {
        var delay := MaxReal(1.0, MinReal(300.0, retryAfter));
        var emptied := buckets[provider].(tokens := 0.0, updated := now, unavailableUntil := now + delay);
        buckets := buckets[provider := emptied];
      }
    }

    method Reconfigure(plans: seq<(string, Plan)>, allow: bool, days: nat, now: real)
      requires days > 0
      modifies this
      ensures Replanned(buckets, old(buckets), plans, days, now)
      ensures allowBillable == allow && usage == old(usage)
      ensures forall name :: name in buckets && name in old(buckets) ==>
                var step := QuotaModel.Reconfigure(LastPlan(plans, name).value, allow, days);
                View(name) == Next(old(View(name)), Event(now, step))
    {
      allowBillable := allow;
      buckets := BuildBuckets(buckets, plans, days, now);
    }
  }

  // ---------------------------------------------------------------- any number of reconfigurations

  datatype Configuration = Configuration(plans: seq<(string, Plan)>, days: nat, now: real)

  predicate Dated(configurations: seq<Configuration>) {
    forall i :: 0 <= i < |configurations| ==> configurations[i].days > 0
  }

  /** What one reconfiguration makes of a provider's bucket. */
  function Carried(bucket: Option<Bucket>, name: string, c: Configuration): Option<Bucket>
    requires c.days > 0
  {
    var plan := LastPlan(c.plans, name);
    if plan.None? then None
    else if bucket.None? then Some(NewBucket(plan.value, c.days, c.now))
    else Some(Replan(bucket.value, plan.value, c.days, c.now))
  }

  function CarriedThrough(bucket: Option<Bucket>, name: string, cs: seq<Configuration>): Option<Bucket>
    requires Dated(cs)
  {
    if cs == [] then bucket
    else Carried(CarriedThrough(bucket, name, cs[..|cs| - 1]), name, cs[|cs| - 1])
  }

  function BucketOf(buckets: map<string, Bucket>, name: string): Option<Bucket> {
    if name in buckets then Some(buckets[name]) else None
  }

  /** The broker's own reconfiguration carries each bucket in this way. */
  lemma ReplannedCarries(buckets: map<string, Bucket>, previous: map<string, Bucket>, c: Configuration, name: string)
    requires c.days > 0 && Replanned(buckets, previous, c.plans, c.days, c.now)
    ensures BucketOf(buckets, name) == Carried(BucketOf(previous, name), name, c)
  {
  }

  predicate ListedInAll(name: string, cs: seq<Configuration>) {
    forall i :: 0 <= i < |cs| ==> LastPlan(cs[i].plans, name).Some?
  }

  /** The bucket is still there, with no more tokens and the same backoff. */
  predicate Survives(before: Bucket, after: Option<Bucket>) {
    after.Some? && after.value.tokens <= before.tokens && after.value.unavailableUntil == before.unavailableUntil
  }

  lemma {:induction false} ListedSurvives(b: Bucket, name: string, cs: seq<Configuration>)
    requires Dated(cs) && ListedInAll(name, cs)
    ensures Survives(b, CarriedThrough(Some(b), name, cs))
  {
    if cs == [] {
    } else {
      ListedSurvives(b, name, cs[..|cs| - 1]);
    }
  }

  /** After a reconfiguration without the provider, nothing of its earlier bucket is left. */
  lemma {:induction false} DropForgets(b: Option<Bucket>, name: string, cs: seq<Configuration>)
    requires Dated(cs) && !ListedInAll(name, cs)
    ensures CarriedThrough(b, name, cs) == CarriedThrough(None, name, cs)
  {
    var init := cs[..|cs| - 1];
    if LastPlan(cs[|cs| - 1].plans, name).Some? {
      assert !ListedInAll(name, init) by {
        var i :| 0 <= i < |cs| && LastPlan(cs[i].plans, name).None?;
        assert init[i] == cs[i];
      }
      DropForgets(b, name, init);
    }
  }

  /** Tokens and backoff survive, whatever they were, exactly when every reconfiguration lists the provider. */
  lemma SurvivesExactly(name: string, cs: seq<Configuration>)
    requires Dated(cs)
    ensures ListedInAll(name, cs) <==> forall b: Bucket :: Survives(b, CarriedThrough(Some(b), name, cs))
  {
    if ListedInAll(name, cs) {
      forall b: Bucket ensures Survives(b, CarriedThrough(Some(b), name, cs)) {
        ListedSurvives(b, name, cs);
      }
    } else {
      var plan := Plan(1, None, 0.0, false, false);
      var early, late := Bucket(plan, 0.0, 0.0, 1.0), Bucket(plan, 0.0, 0.0, 2.0);
      DropForgets(Some(early), name, cs);
      DropForgets(Some(late), name, cs);
      assert !Survives(early, CarriedThrough(Some(early), name, cs))
          || !Survives(late, CarriedThrough(Some(late), name, cs));
    }
  }

  /** Dropping a provider and listing it again starts it with a full bucket and no backoff. */
  lemma ReaddedIsFull(
    b: Option<Bucket>, name: string, cs: seq<Configuration>, without: Configuration, again: Configuration)
    requires Dated(cs) && without.days > 0 && again.days > 0
    requires LastPlan(without.plans, name).None? && LastPlan(again.plans, name).Some?
    ensures var all, plan := cs + [without, again], LastPlan(again.plans, name).value;
            && CarriedThrough(b, name, all) == Some(NewBucket(plan, again.days, again.now))
            && CarriedThrough(b, name, all).value.tokens >= 1.0
            && CarriedThrough(b, name, all).value.unavailableUntil == 0.0
  {
    var all := cs + [without, again];
    assert all[..|all| - 1] == cs + [without];
    assert (cs + [without])[..|cs|] == cs;
  }
}
