/** Exactly which verdict a pass reaches, from the enrolments it leaves. */
module CoachVerdict {
  import opened Common
  import opened CoachModel
  import opened CoachEvidence

  /** Usable outcomes of one season. */
  function ValuedIn(items: seq<Enrolment>, season: int): nat {
    if items == [] then 0
    else
      var last := items[|items| - 1];
      ValuedIn(items[..|items| - 1], season) + (if last.value.Some? && last.season == season then 1 else 0)
  }

  /** Two seasons have ten usable outcomes each. */
  ghost predicate TwoSeasons(items: seq<Enrolment>) {
    exists s, t :: s != t && ValuedIn(items, s) >= 10 && ValuedIn(items, t) >= 10
  }

  lemma {:induction false} SeasonsCount(items: seq<Enrolment>)
    ensures forall s :: s in Seasons(items) <==> ValuedIn(items, s) > 0
    ensures forall s :: s in Seasons(items) ==> Seasons(items)[s] == ValuedIn(items, s)
  {
    if items != [] {
      SeasonsCount(items[..|items| - 1]);
    }
  }

  lemma TwoMembers(xs: set<int>)
    ensures |xs| >= 2 <==> exists s, t :: s in xs && t in xs && s != t
  {
    if |xs| >= 2 {
      var s := Pick(xs);
      assert |xs - {s}| == |xs| - 1;
      var t := Pick(xs - {s});
      assert s in xs && t in xs && s != t;
    }
    if s, t :| s in xs && t in xs && s != t {
      SubsetSize({s, t}, xs);
    }
  }

  lemma SeasonsAreTwo(items: seq<Enrolment>)
    ensures MeaningfulSeasons(Seasons(items)) >= MINIMUM_SEASONS <==> TwoSeasons(items)
  {
    SeasonsCount(items);
    var seasons := Seasons(items);
    var meaningful := set s | s in seasons && seasons[s] >= SAMPLES_PER_SEASON;
    TwoMembers(meaningful);
    forall s ensures s in meaningful <==> ValuedIn(items, s) >= 10 {
    }
  }

  /** Half the confidence interval. */
  function Half(margin: seq<real> -> real, values: seq<real>): real {
    if |values| >= 2 then margin(values) else 1.0
  }

  function Mean(values: seq<real>): real
    requires values != []
  {
    Sum(values) / |values| as real
  }

  /** Enough usable outcomes, widely enough available and spread, with a lower bound above one percent. */
  ghost predicate Supported(margin: seq<real> -> real, d: Design, prefix: seq<Enrolment>) {
    var values := Values(prefix);
    && values != [] && |values| >= d.minimumSamples && Availability(|values|, |prefix|) >= d.minimumAvailability
    && TwoSeasons(prefix) && Mean(values) - Half(margin, values) > 0.01
  }

  /** At least 120 usable outcomes and an upper bound that is not positive. */
  ghost predicate Rejected(margin: seq<real> -> real, prefix: seq<Enrolment>) {
    var values := Values(prefix);
    |values| >= 120 && Mean(values) + Half(margin, values) <= 0.0
  }

  lemma BoundsAre(margin: seq<real> -> real, values: seq<real>)
    ensures values == [] ==> Bounds(margin, values).None?
    ensures values != [] ==> Bounds(margin, values) == Some((Mean(values), Mean(values) - Half(margin, values),
                                                             Mean(values) + Half(margin, values)))
  {
  }

  lemma SupportedIs(margin: seq<real> -> real, d: Design, prefix: seq<Enrolment>, e: Evidence)
    requires Measures(margin, prefix, e)
    ensures Supported(margin, d, prefix) <==>
              && e.usable >= d.minimumSamples && e.availability >= d.minimumAvailability
              && e.seasonCount >= MINIMUM_SEASONS && e.bounds.Some? && e.bounds.value.1 > MINIMUM_UPLIFT
    ensures Rejected(margin, prefix) <==>
              e.usable >= REJECTION_SAMPLES && e.bounds.Some? && e.bounds.value.2 <= 0.0
  {
    SeasonsAreTwo(prefix);
    BoundsAre(margin, Values(prefix));
  }

  /** The evidence measures this prefix. */
  predicate Measures(margin: seq<real> -> real, prefix: seq<Enrolment>, e: Evidence) {
    && e.observed == |prefix| && e.usable == |Values(prefix)| && e.availability == Availability(e.usable, e.observed)
    && e.seasonCount == MeaningfulSeasons(Seasons(prefix)) && e.bounds == Bounds(margin, Values(prefix))
  }

  lemma JudgeIs(d: Design, e: Evidence, now: int, supported: bool, rejected: bool)
    requires supported <==>
               && e.usable >= d.minimumSamples && e.availability >= d.minimumAvailability
               && e.seasonCount >= MINIMUM_SEASONS && e.bounds.Some? && e.bounds.value.1 > MINIMUM_UPLIFT
    requires rejected <==> e.usable >= REJECTION_SAMPLES && e.bounds.Some? && e.bounds.value.2 <= 0.0
    ensures var state := Judge(d, e, now).0;
            && (state == Promising <==> supported) && (state == NotSupported <==> !supported && rejected)
            && (state == Testing <==>
                  !supported && !rejected && e.observed < 180 && now - d.createdAt < 90 * 24 * 3600 * 1_000_000)
  {
  }

  lemma RulingIs(margin: seq<real> -> real, d: Design, prefix: seq<Enrolment>, e: Evidence, now: int)
    requires Measures(margin, prefix, e)
    ensures var state := Judge(d, e, now).0;
            && (state == Promising <==> Supported(margin, d, prefix))
            && (state == NotSupported <==> !Supported(margin, d, prefix) && Rejected(margin, prefix))
            && (state == Testing <==>
                  && !Supported(margin, d, prefix) && !Rejected(margin, prefix)
                  && |prefix| < 180 && now - d.createdAt < 90 * 24 * 3600 * 1_000_000)
  {
    SupportedIs(margin, d, prefix, e);
    JudgeIs(d, e, now, Supported(margin, d, prefix), Rejected(margin, prefix));
  }

  lemma VerdictFields(
    margin: seq<real> -> real, h: Hypothesis, es: seq<Episode>, identities: map<int, Reservation>,
    cursor: Cursor, gap: bool, now: int)
    requires h.state.Testing? && (gap ==> |h.enrolled| >= MAXIMUM_OBSERVED)
    ensures var out := Evaluate(margin, h, es, identities, cursor, gap, now);
            && out.resolvedAt == (if out.state == Testing then None else Some(now))
            && out.contribution == (if out.state == Promising && h.design.learnable && h.contribution == ResearchOnly
                                    then ReadyToContribute else h.contribution)
  {
  }

  /** A study whose rows were pruned unread before it filled up ends without a verdict on its merits. */
  lemma GapEnds(
    margin: seq<real> -> real, h: Hypothesis, es: seq<Episode>, identities: map<int, Reservation>,
    cursor: Cursor, now: int)
    requires h.state.Testing? && |h.enrolled| < MAXIMUM_OBSERVED
    ensures var out := Evaluate(margin, h, es, identities, cursor, true, now);
            && out.state == Inconclusive && out.resolvedAt == Some(now)
            && out.updatedAt == now && out.reason == "policy_history_gap"
            && out.enrolled == h.enrolled && out.evidence == h.evidence && out.contribution == h.contribution
  {
  }

  /**
   * Any other pass over an open study finds it supported, not supported, inconclusive (180 observed or
   * 90 days old) or still open, exactly by the resolved prefix it leaves, in this order; only a
   * supported study of a learnable baseline becomes ready to contribute.
   */
  lemma VerdictExactly(
    margin: seq<real> -> real, h: Hypothesis, es: seq<Episode>, identities: map<int, Reservation>,
    cursor: Cursor, gap: bool, now: int)
    requires h.state.Testing? && (gap ==> |h.enrolled| >= MAXIMUM_OBSERVED)
    ensures var out := Evaluate(margin, h, es, identities, cursor, gap, now);
            var prefix := out.enrolled[..PrefixLength(out.enrolled)];
            && (out.state == Promising <==> Supported(margin, h.design, prefix))
            && (out.state == NotSupported <==> !Supported(margin, h.design, prefix) && Rejected(margin, prefix))
            && (out.state == Testing <==>
                  && !Supported(margin, h.design, prefix) && !Rejected(margin, prefix)
                  && |prefix| < 180 && now - h.design.createdAt < 90 * 24 * 3600 * 1_000_000)
            && out.resolvedAt == (if out.state == Testing then None else Some(now))
            && out.contribution == (if out.state == Promising && h.design.learnable && h.contribution == ResearchOnly
                                    then ReadyToContribute else h.contribution)
  {
    PassFields(margin, h, es, identities, cursor, gap, now);
    VerdictFields(margin, h, es, identities, cursor, gap, now);
    var out := Evaluate(margin, h, es, identities, cursor, gap, now);
    RulingIs(margin, h.design, out.enrolled[..PrefixLength(out.enrolled)], out.evidence, now);
  }

  /** The available share of the observed outcomes. */
  lemma AvailabilityIs(usable: nat, observed: nat, least: real)
    requires usable <= observed
    ensures observed == 0 ==> Availability(usable, observed) == 0.0
    ensures observed > 0 ==>
              (Availability(usable, observed) >= least <==> usable as real >= least * observed as real)
  {
    if observed > 0 {
      var a := Availability(usable, observed);
      assert a * observed as real == usable as real;
      if a >= least {
        assert (a - least) * observed as real >= 0.0;
      } else {
        assert (least - a) * observed as real > 0.0;
      }
    }
  }

  function ReasonFor(state: Verdict, observed: nat): string {
    match state
    case Promising => "forward_proof_supported"
    case NotSupported => "forward_evidence_not_supported"
    case Inconclusive => if observed >= 180 then "maximum_forward_evidence_reached" else "forward_study_expired"
    case Testing => ""
  }

  /** A pass that changes anything is stamped with its time, a new measurement as an evaluation; the reason says why. */
  lemma ChangesAreStamped(
    margin: seq<real> -> real, h: Hypothesis, es: seq<Episode>, identities: map<int, Reservation>,
    cursor: Cursor, gap: bool, now: int)
    requires h.state.Testing? && (gap ==> |h.enrolled| >= MAXIMUM_OBSERVED)
    ensures var out := Evaluate(margin, h, es, identities, cursor, gap, now);
            && (out != h ==> out.updatedAt == now)
            && (out.evidence != h.evidence || out.state != h.state ==> out.evaluatedAt == Some(now))
            && out.reason == ReasonFor(out.state, PrefixLength(out.enrolled))
  {
    PassFields(margin, h, es, identities, cursor, gap, now);
    StampsAre(margin, h, es, identities, cursor, gap, now);
    ReasonIs(h.design, Evaluate(margin, h, es, identities, cursor, gap, now).evidence, now);
  }

  lemma ReasonIs(d: Design, e: Evidence, now: int)
    ensures Judge(d, e, now).1 == ReasonFor(Judge(d, e, now).0, e.observed)
  {
  }

  lemma StampsAre(
    margin: seq<real> -> real, h: Hypothesis, es: seq<Episode>, identities: map<int, Reservation>,
    cursor: Cursor, gap: bool, now: int)
    requires h.state.Testing? && (gap ==> |h.enrolled| >= MAXIMUM_OBSERVED)
    ensures var out := Evaluate(margin, h, es, identities, cursor, gap, now);
            && (out != h ==> out.updatedAt == now)
            && (out.evidence != h.evidence || out.state != h.state ==> out.evaluatedAt == Some(now))
            && out.reason == Judge(h.design, out.evidence, now).1
  {
  }
}
