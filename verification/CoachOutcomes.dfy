/** Which episodes a study enrols, what their outcomes are worth to it, and how it is judged. */
module CoachOutcomes {
  import opened Common
  import opened CoachModel
  import opened CoachEvidence

  // ---------------------------------------------------------------- who is enrolled

  predicate Satisfies(m: Meta, feature: string, atMost: bool, threshold: real) {
    feature in m.features &&
    match m.features[feature]
    case NotFinite => false
    case Finite(x) => if atMost then x <= threshold else threshold <= x
  }

  /** The episodes the design speaks about. */
  predicate Selects(d: Design, m: Meta) {
    m.enters &&
    match d.kind
    case SizingMultiplier => d.multiplier.Some?
    case EarlierReview => d.hold.Some?
    case _ =>
      if d.conditions != [] then
        forall i :: 0 <= i < |d.conditions| ==>
          Satisfies(m, d.conditions[i].feature, d.conditions[i].atMost, d.conditions[i].threshold)
      else
        && d.feature.Some? && d.atMost.Some? && d.threshold.Some?
        && Satisfies(m, d.feature.value, d.atMost.value, d.threshold.value)
  }

  /** A complete policy entry after the cutoff in the study's context, and the first of its identity. */
  predicate Admitted(d: Design, identities: map<int, Reservation>, m: Meta) {
    && m.enters && m.qualifies && m.zoned && m.featuresComplete && m.season.Some? && m.context == d.context
    && m.createdAt == m.entryAt > d.cutoffAt
    && m.key in identities && identities[m.key] == Reservation(Some(m.entryAt), Some(m.id))
  }

  predicate Eligible(d: Design, identities: map<int, Reservation>, m: Meta) {
    Admitted(d, identities, m) && Selects(d, m)
  }

  function Enrols(m: Meta): Enrolment
    requires m.season.Some?
  {
    Enrolment(m.id, m.key, m.entryAt, m.season.value, false, None)
  }

  lemma SelectsIsRelevant(d: Design, e: Episode)
    ensures Selects(d, e.meta) == ObservationValue(d, e).relevant
  {
    if e.meta.enters && (d.kind.EntryVeto? || d.kind.ManipulationVeto?) && d.conditions != [] {
      assert ConditionsMatch(e.meta, d.conditions) == Selects(d, e.meta);
    }
  }

  lemma EnrolsOneExactly(h: Hypothesis, identities: map<int, Reservation>, acc: Scan, e: Episode)
    ensures EnrolOne(h, identities, acc, e).enrolled ==
            if Scans(h, acc, e) && Eligible(h.design, identities, e.meta) && e.meta.key !in Known(acc.enrolled)
            then acc.enrolled + [Enrols(e.meta)] else acc.enrolled
  {
    SelectsIsRelevant(h.design, e);
  }

  /** Some eligible row of the page, beyond the cursor, became this enrolment. */
  ghost predicate ComesFrom(h: Hypothesis, identities: map<int, Reservation>, es: seq<Episode>, item: Enrolment) {
    exists e ::
      e in es && Beyond(PositionOf(e.meta), h) && Eligible(h.design, identities, e.meta) && item == Enrols(e.meta)
  }

  /** What one scan adds: eligible rows only, and every one of them while there is room. */
  ghost predicate AddsExactly(
    h: Hypothesis, identities: map<int, Reservation>, es: seq<Episode>, before: seq<Enrolment>, after: seq<Enrolment>)
  {
    && before <= after
    && (forall i :: |before| <= i < |after| ==> ComesFrom(h, identities, es, after[i]))
    && (|after| < MAXIMUM_OBSERVED ==>
          forall e :: e in es && Beyond(PositionOf(e.meta), h) && Eligible(h.design, identities, e.meta) ==>
            e.meta.key in Known(after))
  }

  lemma AddsOneMore(
    h: Hypothesis, identities: map<int, Reservation>, es: seq<Episode>, acc: Scan, before: seq<Enrolment>, e: Episode)
    requires AddsExactly(h, identities, es, before, acc.enrolled)
    ensures AddsExactly(h, identities, es + [e], before, EnrolOne(h, identities, acc, e).enrolled)
  {
    EnrolsOneExactly(h, identities, acc, e);
    var after := EnrolOne(h, identities, acc, e).enrolled;
    forall i | |before| <= i < |after| ensures ComesFrom(h, identities, es + [e], after[i]) {
      if i < |acc.enrolled| {
        assert ComesFrom(h, identities, es, acc.enrolled[i]);
        var x :| x in es && Beyond(PositionOf(x.meta), h) && Eligible(h.design, identities, x.meta)
                 && acc.enrolled[i] == Enrols(x.meta);
        assert x in es + [e];
      } else {
        assert e in es + [e];
      }
    }
    if |after| < MAXIMUM_OBSERVED {
      forall x | x in es + [e] && Beyond(PositionOf(x.meta), h) && Eligible(h.design, identities, x.meta)
        ensures x.meta.key in Known(after)
      {
        if x == e {
          assert e.meta.key in Known(acc.enrolled) || after[|after| - 1].identity == e.meta.key;
        } else {
          var item :| item in acc.enrolled && item.identity == x.meta.key;
          assert item in after;
        }
      }
    }
  }

  lemma {:induction false} ScanAdds(
    h: Hypothesis, identities: map<int, Reservation>, acc: Scan, es: seq<Episode>)
    ensures AddsExactly(h, identities, es, acc.enrolled, EnrolAll(h, identities, acc, es).enrolled)
  {
    if es != [] {
      var init := es[..|es| - 1];
      ScanAdds(h, identities, acc, init);
      AddsOneMore(h, identities, init, EnrolAll(h, identities, acc, init), acc.enrolled, es[|es| - 1]);
      assert es == init + [es[|es| - 1]];
    }
  }

  /**
   * A pass enrols exactly the eligible rows beyond the cursor: nothing else, and, unless the study
   * fills up, every one whose identity was not enrolled before.
   */
  lemma EnrolmentExactly(h: Hypothesis, es: seq<Episode>, identities: map<int, Reservation>)
    requires OneRowPerId(es)
    ensures AddsExactly(h, identities, es, h.enrolled, Enrolled(h, es, identities).enrolled)
  {
    OrderedKeeps(es);
    ScanAdds(h, identities, Scan(h.enrolled, h.counts), Ordered(es));
    var after := Enrolled(h, es, identities).enrolled;
    forall i | |h.enrolled| <= i < |after| ensures ComesFrom(h, identities, es, after[i]) {
      assert ComesFrom(h, identities, Ordered(es), after[i]);
    }
  }

  // ---------------------------------------------------------------- what an outcome is worth

  /** The net return at a horizon, if one was recorded. */
  predicate Returned(o: Outcome, horizon: int, x: real) {
    horizon in o.checkpoints && o.checkpoints[horizon].netReturn == Some(x)
  }

  /** An eligible trial of a size: what it cost, and what it was worth at the primary horizon. */
  predicate Sized(o: Outcome, size: real, cost: int, worth: int) {
    && size in o.trials && o.trials[size].eligible && o.trials[size].entryCost == Some(cost)
    && PRIMARY_HORIZON in o.trials[size].checkpoints
    && o.trials[size].checkpoints[PRIMARY_HORIZON].exitValue == Some(worth)
  }

  /**
   * What the change under study would have gained on an episode: a veto gains what the avoided
   * trade lost, another size the difference of the gains over the cost of size one, and an earlier
   * review the difference of the returns.
   */
  ghost predicate IsWorth(d: Design, o: Outcome, v: real) {
    match d.kind
    case SizingMultiplier =>
      d.multiplier.Some? &&
      exists cost, worth, cost1, worth1 ::
        && Sized(o, d.multiplier.value, cost, worth) && Sized(o, 1.0, cost1, worth1) && cost1 > 0
        && v * cost1 as real == ((worth - cost) - (worth1 - cost1)) as real
    case EarlierReview =>
      d.hold.Some? && exists early, late :: Returned(o, d.hold.value, early) && Returned(o, d.baselineHold, late)
                                            && v == early - late
    case _ => Returned(o, PRIMARY_HORIZON, -v)
  }

  /** The checkpoints a study waits for. */
  predicate Complete(d: Design, o: Outcome) {
    match d.kind
    case SizingMultiplier =>
      d.multiplier.Some? &&
      (|| d.multiplier.value !in o.trials || 1.0 !in o.trials
       || (PRIMARY_HORIZON in o.trials[d.multiplier.value].checkpoints && PRIMARY_HORIZON in o.trials[1.0].checkpoints))
    case EarlierReview => d.hold.Some? && d.hold.value in o.checkpoints && d.baselineHold in o.checkpoints
    case _ => PRIMARY_HORIZON in o.checkpoints
  }

  lemma SizedValue(o: Outcome, size: real)
    requires size in o.trials && 1.0 in o.trials && PRIMARY_HORIZON in o.trials[size].checkpoints
    ensures SizeValue(o, size).Some? ==>
              exists cost, worth, cost1 ::
                && Sized(o, size, cost, worth) && o.trials[1.0].entryCost == Some(cost1) && cost1 > 0
                && SizeValue(o, size).value == (worth - cost) as real / cost1 as real
    ensures SizeValue(o, size).None? ==>
              !exists cost, worth, cost1 ::
                Sized(o, size, cost, worth) && o.trials[1.0].entryCost == Some(cost1) && cost1 > 0
  {
    if SizeValue(o, size).Some? {
      var trial := o.trials[size];
      assert Sized(o, size, trial.entryCost.value, trial.checkpoints[PRIMARY_HORIZON].exitValue.value);
    }
  }

  lemma Ratio(x: int, y: int, z: int, v: real)
    requires z > 0
    ensures v == x as real / z as real - y as real / z as real <==> v * z as real == (x - y) as real
  {
    var q, r := x as real / z as real, y as real / z as real;
    assert q * z as real == x as real && r * z as real == y as real;
    assert (q - r) * z as real == (x - y) as real;
    if v * z as real == (x - y) as real {
      assert (v - (q - r)) * z as real == 0.0;
    }
  }

  lemma SizingWorth(d: Design, o: Outcome, v: real)
    requires d.kind.SizingMultiplier? && d.multiplier.Some? && Complete(d, o)
    ensures SizingValue(d, o).value == Some(v) <==> IsWorth(d, o, v)
  {
    var k := d.multiplier.value;
    if k in o.trials && 1.0 in o.trials {
      SizedValue(o, k);
      SizedValue(o, 1.0);
      if SizeValue(o, k).Some? && SizeValue(o, 1.0).Some? {
        var cost, worth := o.trials[k].entryCost.value, o.trials[k].checkpoints[PRIMARY_HORIZON].exitValue.value;
        var cost1, worth1 := o.trials[1.0].entryCost.value, o.trials[1.0].checkpoints[PRIMARY_HORIZON].exitValue.value;
        assert Sized(o, k, cost, worth) && Sized(o, 1.0, cost1, worth1);
        Ratio(worth - cost, worth1 - cost1, cost1, v);
      }
    }
  }

  /** For a selected episode: what the study reads, and when it can read it. */
  lemma ObservationExactly(d: Design, e: Episode, v: real)
    requires Selects(d, e.meta)
    ensures ObservationValue(d, e).relevant
    ensures ObservationValue(d, e).resolved <==> Complete(d, e.outcome)
    ensures Complete(d, e.outcome) ==> (ObservationValue(d, e).value == Some(v) <==> IsWorth(d, e.outcome, v))
  {
    SelectsIsRelevant(d, e);
    if d.kind.SizingMultiplier? && Complete(d, e.outcome) {
      SizingWorth(d, e.outcome, v);
    }
    if d.kind.EarlierReview? && Complete(d, e.outcome) {
      var early, late := e.outcome.checkpoints[d.hold.value].netReturn, e.outcome.checkpoints[d.baselineHold].netReturn;
      if early.Some? && late.Some? {
        assert Returned(e.outcome, d.hold.value, early.value) && Returned(e.outcome, d.baselineHold, late.value);
      }
    }
  }

  // ---------------------------------------------------------------- one enrolment in one pass

  lemma {:induction false} ByIdFinds(es: seq<Episode>, id: int, e: Episode)
    requires OneRowPerId(es)
    ensures ById(es, id) == Some(e) <==> e in es && e.meta.id == id
  {
    if es != [] {
      var init := es[..|es| - 1];
      ByIdFinds(init, id, e);
      assert es == init + [es[|es| - 1]];
    }
  }

  /** A checkpoint that the study reads has no zone or lies in the future. */
  predicate NotYet(d: Design, o: Outcome, now: int) {
    match d.kind
    case SizingMultiplier =>
      PrematureTrial(o, 1.0, now) || (d.multiplier.Some? && PrematureTrial(o, d.multiplier.value, now))
    case EarlierReview =>
      Premature(o.checkpoints, d.baselineHold, now) || (d.hold.Some? && Premature(o.checkpoints, d.hold.value, now))
    case _ => Premature(o.checkpoints, PRIMARY_HORIZON, now)
  }

  predicate Premature(checkpoints: map<int, Checkpoint>, horizon: int, now: int) {
    horizon in checkpoints && (checkpoints[horizon].observedAt > now || !checkpoints[horizon].zoned)
  }

  predicate PrematureTrial(o: Outcome, size: real, now: int) {
    size in o.trials && Premature(o.trials[size].checkpoints, PRIMARY_HORIZON, now)
  }

  /** How long an outcome may take: the longest horizon the study reads and a grace period. */
  function Deadline(d: Design, entryAt: int): int {
    var horizon := if d.kind.EarlierReview? then
                     var hold := if d.hold.Some? then d.hold.value else PRIMARY_HORIZON;
                     if hold < d.baselineHold then d.baselineHold else hold
                   else PRIMARY_HORIZON;
    entryAt + horizon * MICROS + CHECKPOINT_GRACE * MICROS
  }

  lemma PrematureOne(checkpoints: map<int, Checkpoint>, horizon: int, now: int)
    ensures FutureCheckpoint(checkpoints, {horizon}, now) == Premature(checkpoints, horizon, now)
  {
  }

  lemma PrematureTwo(checkpoints: map<int, Checkpoint>, a: int, b: int, now: int)
    ensures FutureCheckpoint(checkpoints, {a} + {b}, now)
            == (Premature(checkpoints, a, now) || Premature(checkpoints, b, now))
  {
    assert a in {a} + {b} && b in {a} + {b};
  }

  lemma NotYetIs(d: Design, o: Outcome, now: int)
    ensures NotYet(d, o, now) == Future(d, o, now)
  {
    match d.kind
    case SizingMultiplier =>
      if 1.0 in o.trials {
        PrematureOne(o.trials[1.0].checkpoints, PRIMARY_HORIZON, now);
      }
      if d.multiplier.Some? && d.multiplier.value in o.trials {
        PrematureOne(o.trials[d.multiplier.value].checkpoints, PRIMARY_HORIZON, now);
      }
    case EarlierReview =>
      PrematureTwo(o.checkpoints, d.baselineHold, if d.hold.Some? then d.hold.value else d.baselineHold, now);
      assert {d.baselineHold} + {} == {d.baselineHold} == {d.baselineHold} + {d.baselineHold};
    case _ => PrematureOne(o.checkpoints, PRIMARY_HORIZON, now);
  }

  /** The row is still the one that was enrolled. */
  predicate Intact(d: Design, identities: map<int, Reservation>, item: Enrolment, m: Meta) {
    && Admitted(d, identities, m) && m.key == item.identity && m.entryAt == item.entryAt && m.id == item.episode
  }

  lemma IntactIs(d: Design, identities: map<int, Reservation>, item: Enrolment, m: Meta)
    ensures Intact(d, identities, item, m) == Unchanged(d, identities, item, m)
  {
  }

  /**
   * A pending enrolment whose row is still there and unaltered is resolved exactly when its
   * checkpoints are complete and none lies in the future, or its time is up; it then has a value
   * exactly when the checkpoints give one, and that is the value.
   */
  lemma OutcomeExactly(
    d: Design, identities: map<int, Reservation>, es: seq<Episode>, now: int, item: Enrolment, e: Episode, v: real)
    requires OneRowPerId(es) && e in es && !item.resolved && item.value.None?
    requires Intact(d, identities, item, e.meta) && Selects(d, e.meta)
    ensures var out := ResolveOne(d, identities, es, now, item);
            var ready := Complete(d, e.outcome) && !NotYet(d, e.outcome, now);
            && SameEnrolment(item, out)
            && (out.resolved <==> ready || now > Deadline(d, item.entryAt))
            && (out.value == Some(v) <==> ready && IsWorth(d, e.outcome, v))
            && FateOf(d, identities, es, item) == Kept
  {
    ByIdFinds(es, item.episode, e);
    IntactIs(d, identities, item, e.meta);
    ObservationExactly(d, e, v);
    NotYetIs(d, e.outcome, now);
  }

  /** If the design no longer selects the row, the enrolment waits until its time is up and has no value. */
  lemma DeselectedExactly(
    d: Design, identities: map<int, Reservation>, es: seq<Episode>, now: int, item: Enrolment, e: Episode)
    requires OneRowPerId(es) && e in es && !item.resolved && item.value.None?
    requires Intact(d, identities, item, e.meta) && !Selects(d, e.meta)
    ensures ResolveOne(d, identities, es, now, item) == item.(resolved := now > Deadline(d, item.entryAt))
  {
    ByIdFinds(es, item.episode, e);
    IntactIs(d, identities, item, e.meta);
    SelectsIsRelevant(d, e);
  }

  /** A pending enrolment whose row is gone or altered is resolved without a value, and counted as such. */
  lemma LostExactly(d: Design, identities: map<int, Reservation>, es: seq<Episode>, now: int, item: Enrolment)
    requires OneRowPerId(es) && !item.resolved && item.value.None?
    requires forall e :: e in es ==> !Intact(d, identities, item, e.meta)
    ensures ResolveOne(d, identities, es, now, item) == item.(resolved := true)
    ensures FateOf(d, identities, es, item)
            == if exists e :: e in es && e.meta.id == item.episode then Changed else Missing
  {
    var found := ById(es, item.episode);
    if found.Some? {
      ByIdFinds(es, item.episode, found.value);
      IntactIs(d, identities, item, found.value.meta);
    } else {
      forall e | e in es ensures e.meta.id != item.episode {
        ByIdFinds(es, item.episode, e);
      }
    }
  }

  // ---------------------------------------------------------------- counting

  /** The fates of enrolments, in order. */
  function Fates(d: Design, identities: map<int, Reservation>, es: seq<Episode>, items: seq<Enrolment>): seq<Fate> {
    if items == [] then []
    else Fates(d, identities, es, items[..|items| - 1]) + [FateOf(d, identities, es, items[|items| - 1])]
  }

  lemma {:induction false} FatesAre(
    d: Design, identities: map<int, Reservation>, es: seq<Episode>, items: seq<Enrolment>)
    ensures |Fates(d, identities, es, items)| == |items|
    ensures forall i :: 0 <= i < |items| ==>
              Fates(d, identities, es, items)[i] == FateOf(d, identities, es, items[i])
  {
    if items != [] {
      FatesAre(d, identities, es, items[..|items| - 1]);
    }
  }

  function Places(fates: seq<Fate>, fate: Fate): set<int> {
    set i | 0 <= i < |fates| && fates[i] == fate
  }

  lemma PlacesMore(fates: seq<Fate>, last: Fate, fate: Fate)
    ensures |Places(fates + [last], fate)| == |Places(fates, fate)| + (if last == fate then 1 else 0)
  {
    assert Places(fates + [last], fate) == Places(fates, fate) + (if last == fate then {|fates|} else {});
  }

  /** The counters of a pass are numbers of enrolments. */
  lemma {:induction false} FatesCounted(
    d: Design, identities: map<int, Reservation>, es: seq<Episode>, items: seq<Enrolment>, fate: Fate)
    ensures CountFate(d, identities, es, items, fate) == |Places(Fates(d, identities, es, items), fate)|
  {
    if items == [] {
      assert Places([], fate) == {};
    } else {
      var n := |items| - 1;
      FatesCounted(d, identities, es, items[..n], fate);
      PlacesMore(Fates(d, identities, es, items[..n]), FateOf(d, identities, es, items[n]), fate);
    }
  }

  function Pending(items: seq<Enrolment>): set<int> {
    set i | 0 <= i < |items| && !items[i].resolved
  }

  lemma PendingMore(items: seq<Enrolment>)
    requires items != []
    ensures var n := |items| - 1; |Pending(items)| == |Pending(items[..n])| + (if items[n].resolved then 0 else 1)
  {
    var n := |items| - 1;
    assert Pending(items) == Pending(items[..n]) + (if items[n].resolved then {} else {n});
  }

  lemma {:induction false} PendingCounted(items: seq<Enrolment>)
    ensures CountPending(items) == |Pending(items)|
  {
    if items == [] {
      assert Pending(items) == {};
    } else {
      PendingCounted(items[..|items| - 1]);
      PendingMore(items);
    }
  }

  /** A pass adds the enrolments it found gone or altered to their counters and counts all and the pending ones. */
  lemma CountersExactly(h: Hypothesis, es: seq<Episode>, identities: map<int, Reservation>, now: int)
    ensures var scan, items := Enrolled(h, es, identities), Resolved(h, es, identities, now);
            var counts := PassCounts(h, es, identities, now);
            && counts.missing == scan.counts.missing
               + |Places(Fates(h.design, identities, es, scan.enrolled), Missing)|
            && counts.changed == scan.counts.changed
               + |Places(Fates(h.design, identities, es, scan.enrolled), Changed)|
            && counts.pending == |Pending(items)|
            && counts.enrolled == |items| && counts.scanned == scan.counts.scanned
            && counts.contextExcluded == scan.counts.contextExcluded
            && counts.identityExcluded == scan.counts.identityExcluded
            && counts.conditionExcluded == scan.counts.conditionExcluded
  {
    var scan := Enrolled(h, es, identities);
    FatesCounted(h.design, identities, es, scan.enrolled, Missing);
    FatesCounted(h.design, identities, es, scan.enrolled, Changed);
    PendingCounted(Resolved(h, es, identities, now));
  }

  /** The counted values are those of the enrolments that have one, in order. */
  predicate ValuesAt(items: seq<Enrolment>, idx: seq<nat>, values: seq<real>) {
    && |values| == |idx| && (forall a, b :: 0 <= a < b < |idx| ==> idx[a] < idx[b])
    && (forall k :: 0 <= k < |idx| ==> idx[k] < |items| && items[idx[k]].value == Some(values[k]))
    && (forall i: nat :: i < |items| && items[i].value.Some? ==> i in idx)
  }

  lemma {:induction false} ValuesExactly(items: seq<Enrolment>) returns (idx: seq<nat>)
    ensures ValuesAt(items, idx, Values(items))
  {
    if items == [] {
      idx := [];
    } else {
      var n := |items| - 1;
      var before := ValuesExactly(items[..n]);
      idx := if items[n].value.Some? then before + [n] else before;
      ValuesMore(items, before, Values(items[..n]));
    }
  }

  lemma ValuesMore(items: seq<Enrolment>, before: seq<nat>, values: seq<real>)
    requires items != [] && ValuesAt(items[..|items| - 1], before, values)
    ensures var n := |items| - 1;
            if items[n].value.Some? then ValuesAt(items, before + [n], values + [items[n].value.value])
            else ValuesAt(items, before, values)
  {
    var n := |items| - 1;
    forall i: nat | i < |items| && items[i].value.Some?
      ensures i in (if items[n].value.Some? then before + [n] else before)
    {
      if i < n {
        assert items[..n][i] == items[i] && i in before;
      }
    }
  }

  /** The sum behind the mean adds every value once. */
  lemma {:induction false} SumsAdd(a: seq<real>, b: seq<real>)
    ensures Sum(a + b) == Sum(a) + Sum(b)
    ensures forall x :: Sum([x]) == x
  {
    assert forall x: real :: [x][..0] == [];
    if b == [] {
      assert a + b == a;
    } else {
      var n := |b| - 1;
      SumsAdd(a, b[..n]);
      assert (a + b)[..|a + b| - 1] == a + b[..n];
    }
  }
}
