/** The values a study counts are the true worth of its episodes, over every run. */
module CoachValues {
  import opened Common
  import opened CoachModel
  import opened CoachEvidence
  import opened Outcomes = CoachOutcomes
  import Runs = CoachRuns

  /** What a row shows so far agrees with how the episode really turns out. */
  predicate Reveals(o: Outcome, truth: Outcome) {
    && Shows(o.checkpoints, truth.checkpoints)
    && forall size :: size in o.trials ==>
         && size in truth.trials && o.trials[size].eligible == truth.trials[size].eligible
         && o.trials[size].entryCost == truth.trials[size].entryCost
         && Shows(o.trials[size].checkpoints, truth.trials[size].checkpoints)
  }

  predicate Shows(some: map<int, Checkpoint>, all: map<int, Checkpoint>) {
    forall horizon :: horizon in some ==> horizon in all && some[horizon] == all[horizon]
  }

  predicate AllReveal(es: seq<Episode>, truth: int -> Outcome) {
    forall e :: e in es ==> Reveals(e.outcome, truth(e.meta.id))
  }

  lemma SizedRevealed(o: Outcome, truth: Outcome, size: real, cost: int, worth: int)
    requires Reveals(o, truth) && Sized(o, size, cost, worth)
    ensures Sized(truth, size, cost, worth)
  {
  }

  lemma WorthRevealed(d: Design, o: Outcome, truth: Outcome, v: real)
    requires Reveals(o, truth) && IsWorth(d, o, v)
    ensures IsWorth(d, truth, v)
  {
    if d.kind.SizingMultiplier? {
      var k := d.multiplier.value;
      var cost, worth, cost1, worth1 :| Sized(o, k, cost, worth) && Sized(o, 1.0, cost1, worth1) && cost1 > 0
                                        && v * cost1 as real == ((worth - cost) - (worth1 - cost1)) as real;
      SizedRevealed(o, truth, k, cost, worth);
      SizedRevealed(o, truth, 1.0, cost1, worth1);
    } else if d.kind.EarlierReview? {
      var early, late :| Returned(o, d.hold.value, early) && Returned(o, d.baselineHold, late) && v == early - late;
      assert Returned(truth, d.hold.value, early) && Returned(truth, d.baselineHold, late);
    }
  }

  predicate Unvalued(item: Enrolment) {
    !item.resolved ==> item.value.None?
  }

  ghost predicate TrueValue(d: Design, truth: int -> Outcome, item: Enrolment) {
    item.value.Some? ==> IsWorth(d, truth(item.episode), item.value.value)
  }

  ghost predicate TrueValues(d: Design, truth: int -> Outcome, items: seq<Enrolment>) {
    forall i :: 0 <= i < |items| ==> TrueValue(d, truth, items[i])
  }

  lemma ResolvesTruly(
    d: Design, identities: map<int, Reservation>, es: seq<Episode>, now: int, item: Enrolment, truth: int -> Outcome)
    requires OneRowPerId(es) && AllReveal(es, truth) && Unvalued(item) && TrueValue(d, truth, item)
    ensures TrueValue(d, truth, ResolveOne(d, identities, es, now, item))
  {
    var out := ResolveOne(d, identities, es, now, item);
    if !item.resolved && out.value.Some? {
      if exists e :: e in es && Intact(d, identities, item, e.meta) {
        var e :| e in es && Intact(d, identities, item, e.meta);
        if Selects(d, e.meta) {
          OutcomeExactly(d, identities, es, now, item, e, out.value.value);
          WorthRevealed(d, e.outcome, truth(item.episode), out.value.value);
        } else {
          DeselectedExactly(d, identities, es, now, item, e);
        }
      } else {
        LostExactly(d, identities, es, now, item);
      }
    }
  }

  lemma ResolvesAll(
    h: Hypothesis, es: seq<Episode>, identities: map<int, Reservation>, now: int, truth: int -> Outcome)
    requires OneRowPerId(es) && AllReveal(es, truth) && Sound(truth, h)
    ensures forall item :: item in Resolved(h, es, identities, now) ==>
              Unvalued(item) && TrueValue(h.design, truth, item)
  {
    EnrolmentExactly(h, es, identities);
    var scan, items := Enrolled(h, es, identities).enrolled, Resolved(h, es, identities, now);
    forall i | 0 <= i < |items| ensures Unvalued(items[i]) && TrueValue(h.design, truth, items[i]) {
      if i < |h.enrolled| {
        assert scan[i] == h.enrolled[i] && h.enrolled[i] in h.enrolled;
      } else {
        assert ComesFrom(h, identities, es, scan[i]);
      }
      ResolvesTruly(h.design, identities, es, now, scan[i], truth);
      assert items[i] == ResolveOne(h.design, identities, es, now, scan[i]);
    }
  }

  // ---------------------------------------------------------------- every run

  /** Every value of the study is what its episode is worth. */
  ghost predicate Sound(truth: int -> Outcome, h: Hypothesis) {
    forall item :: item in h.enrolled ==> Unvalued(item) && TrueValue(h.design, truth, item)
  }

  predicate RowReveals(truth: int -> Outcome, row: Runs.Row) {
    Reveals(row.episode.outcome, truth(row.episode.meta.id))
  }

  /** Every row written shows nothing but how its episode turns out. */
  predicate StepReveals(truth: int -> Outcome, step: Runs.Step) {
    (step.Insert? || step.Advance?) ==> RowReveals(truth, step.row)
  }

  ghost predicate ValuesInv(truth: int -> Outcome, w: Runs.World) {
    && (forall p :: p in w.table ==> RowReveals(truth, w.table[p]))
    && (forall page :: page in w.pages ==> OneRowPerId(page.episodes) && AllReveal(page.episodes, truth))
    && Sound(truth, w.study)
  }

  lemma SaveKeeps(margin: seq<real> -> real, w: Runs.World, page: Runs.Page, now: int, truth: int -> Outcome)
    requires ValuesInv(truth, w) && page in w.pages
    ensures ValuesInv(truth, Runs.SaveIfCurrent(margin, w, page, now))
  {
    var h := w.study;
    if h == page.expected && h.state.Testing? && !(page.gap && |h.enrolled| < MAXIMUM_OBSERVED) {
      PassFields(margin, h, page.episodes, page.identities, page.cursor, page.gap, now);
      ResolvesAll(h, page.episodes, page.identities, now, truth);
    }
  }

  lemma StepKeeps(margin: seq<real> -> real, w: Runs.World, step: Runs.Step, truth: int -> Outcome)
    requires ValuesInv(truth, w) && Runs.Allowed(w, step) && StepReveals(truth, step)
    ensures ValuesInv(truth, Runs.Next(margin, w, step))
  {
    match step
    case Save(page, now) => SaveKeeps(margin, w, page, now, truth);
    case Read(rows, es, _) =>
      forall e | e in es ensures Reveals(e.outcome, truth(e.meta.id)) {
        var p :| p in w.table && w.table[p].episode == e;
        assert RowReveals(truth, w.table[p]);
      }
    case _ =>
  }

  lemma {:induction false} RunKeeps(
    margin: seq<real> -> real, w: Runs.World, steps: seq<Runs.Step>, truth: int -> Outcome)
    requires ValuesInv(truth, w) && Runs.Legal(margin, w, steps)
    requires forall step :: step in steps ==> StepReveals(truth, step)
    ensures ValuesInv(truth, Runs.Exec(margin, w, steps))
    decreases |steps|
  {
    if steps == [] {
    } else {
      assert steps[0] in steps;
      StepKeeps(margin, w, steps[0], truth);
      assert forall step :: step in steps[1..] ==> step in steps;
      RunKeeps(margin, Runs.Next(margin, w, steps[0]), steps[1..], truth);
    }
  }

  /**
   * Whatever is inserted, advanced, pruned, read and saved from a fresh study on, each value it
   * counts is what the change under study would really have gained on that episode.
   */
  lemma ValuesAreTrue(margin: seq<real> -> real, w: Runs.World, steps: seq<Runs.Step>, truth: int -> Outcome)
    requires Runs.Fresh(w) && Runs.Legal(margin, w, steps)
    requires forall p :: p in w.table ==> RowReveals(truth, w.table[p])
    requires forall step :: step in steps ==> StepReveals(truth, step)
    ensures var h := Runs.Exec(margin, w, steps).study;
            forall item :: item in h.enrolled && item.value.Some? ==>
              IsWorth(h.design, truth(item.episode), item.value.value)
  {
    RunKeeps(margin, w, steps, truth);
    var h := Runs.Exec(margin, w, steps).study;
    forall item | item in h.enrolled && item.value.Some?
      ensures IsWorth(h.design, truth(item.episode), item.value.value)
    {
      assert TrueValue(h.design, truth, item);
    }
  }

  // ---------------------------------------------------------------- sums

  /** The net return at the primary horizon. */
  function NetReturn(o: Outcome): real {
    if PRIMARY_HORIZON in o.checkpoints && o.checkpoints[PRIMARY_HORIZON].netReturn.Some?
    then o.checkpoints[PRIMARY_HORIZON].netReturn.value else 0.0
  }

  /** The returns of the avoided trades that count. */
  function Avoided(items: seq<Enrolment>, truth: int -> Outcome): real {
    if items == [] then 0.0
    else
      var last := items[|items| - 1];
      Avoided(items[..|items| - 1], truth) + (if last.value.Some? then NetReturn(truth(last.episode)) else 0.0)
  }

  lemma {:induction false} VetoSum(d: Design, items: seq<Enrolment>, truth: int -> Outcome)
    requires (d.kind.EntryVeto? || d.kind.ManipulationVeto?) && TrueValues(d, truth, items)
    ensures Sum(Values(items)) == -Avoided(items, truth)
  {
    if items != [] {
      var last, init := items[|items| - 1], items[..|items| - 1];
      VetoSum(d, init, truth);
      assert TrueValue(d, truth, last);
      if last.value.Some? {
        assert Values(items)[..|Values(items)| - 1] == Values(init);
      } else {
        assert Values(items) == Values(init);
      }
    }
  }

  lemma VetoStudy(h: Hypothesis, truth: int -> Outcome)
    requires (h.design.kind.EntryVeto? || h.design.kind.ManipulationVeto?) && Sound(truth, h) && EvidenceCurrent(h)
    ensures Sum(h.evidence.values) == -Avoided(h.enrolled[..PrefixLength(h.enrolled)], truth)
    ensures forall item :: item in h.enrolled && item.value.Some? ==>
              (item.value.value > 0.0 <==> NetReturn(truth(item.episode)) < 0.0)
  {
    var prefix := h.enrolled[..PrefixLength(h.enrolled)];
    forall i | 0 <= i < |prefix| ensures TrueValue(h.design, truth, prefix[i]) {
      assert h.enrolled[i] in h.enrolled;
    }
    VetoSum(h.design, prefix, truth);
    forall item | item in h.enrolled && item.value.Some?
      ensures item.value.value > 0.0 <==> NetReturn(truth(item.episode)) < 0.0
    {
      assert TrueValue(h.design, truth, item);
    }
  }

  lemma EndIsSound(
    margin: seq<real> -> real, w: Runs.World, steps: seq<Runs.Step>, truth: int -> Outcome)
    requires Runs.Fresh(w) && Runs.Legal(margin, w, steps)
    requires forall p :: p in w.table ==> RowReveals(truth, w.table[p])
    requires forall step :: step in steps ==> StepReveals(truth, step)
    ensures var h := Runs.Exec(margin, w, steps).study;
            Sound(truth, h) && EvidenceCurrent(h) && h.design == w.study.design
  {
    Runs.FreshLive(margin, w);
    Runs.EvidenceIsAppendOnly(margin, w, steps);
    RunKeeps(margin, w, steps, truth);
  }

  /**
   * A veto is judged by minus the returns of the trades it would have avoided, summed over the
   * counted ones; a counted value is positive exactly when the avoided trade lost.
   */
  lemma VetoCountsAvoidedLosses(
    margin: seq<real> -> real, w: Runs.World, steps: seq<Runs.Step>, truth: int -> Outcome)
    requires Runs.Fresh(w) && Runs.Legal(margin, w, steps)
    requires w.study.design.kind.EntryVeto? || w.study.design.kind.ManipulationVeto?
    requires forall p :: p in w.table ==> RowReveals(truth, w.table[p])
    requires forall step :: step in steps ==> StepReveals(truth, step)
    ensures var h := Runs.Exec(margin, w, steps).study;
            && Sum(h.evidence.values) == -Avoided(h.enrolled[..PrefixLength(h.enrolled)], truth)
            && forall item :: item in h.enrolled && item.value.Some? ==>
                 (item.value.value > 0.0 <==> NetReturn(truth(item.episode)) < 0.0)
  {
    EndIsSound(margin, w, steps, truth);
    VetoStudy(Runs.Exec(margin, w, steps).study, truth);
  }
}
