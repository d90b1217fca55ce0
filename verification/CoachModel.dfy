/**
 * Coach forward evidence: enrolment of policy episodes, their resolution, the resolved
 * prefix that counts, and the verdict. Clocks are microseconds; the text order of
 * (created_at, episode_id) is the order of `Position`.
 */
module CoachModel {
  import opened Common

  const MAXIMUM_OBSERVED: nat := 180
  const REJECTION_SAMPLES: nat := 120
  const MINIMUM_SEASONS: nat := 2
  const SAMPLES_PER_SEASON: nat := 10
  const MINIMUM_UPLIFT: real := 0.01
  const MAXIMUM_AGE: int := 90 * 86_400 * MICROS
  const MICROS: int := 1_000_000
  const PRIMARY_HORIZON: int := 300
  const CHECKPOINT_GRACE: int := 90

  // ---------------------------------------------------------------- episodes

  datatype Position = Position(at: int, id: int)

  predicate Below(a: Position, b: Position) {
    a.at < b.at || (a.at == b.at && a.id < b.id)
  }

  datatype Context = Context(
    riskMode: int, fingerprint: int, baselineVersion: int, featureSchema: int, dependencies: map<int, int>)

  datatype Feature = Finite(value: real) | NotFinite

  /** Everything about an episode that is fixed before its outcome is known. */
  datatype Meta = Meta(
    id: int,
    createdAt: int,
    entryAt: int,
    zoned: bool,
    key: int,
    qualifies: bool,
    season: Option<int>,
    enters: bool,
    featuresComplete: bool,
    context: Context,
    features: map<string, Feature>)

  datatype Checkpoint = Checkpoint(
    netReturn: Option<real>, exitValue: Option<int>, observedAt: int, zoned: bool)

  datatype Trial = Trial(eligible: bool, entryCost: Option<int>, checkpoints: map<int, Checkpoint>)

  datatype Outcome = Outcome(checkpoints: map<int, Checkpoint>, trials: map<real, Trial>)

  datatype Episode = Episode(meta: Meta, outcome: Outcome)

  function PositionOf(m: Meta): Position {
    Position(m.createdAt, m.id)
  }

  /** `_policy_identity` names an entry clock and an episode. */
  predicate PolicyEntry(m: Meta) {
    m.qualifies && m.season.Some? && m.enters && m.zoned && m.featuresComplete
  }

  datatype Reservation = Reservation(entryAt: Option<int>, episode: Option<int>)

  const NO_RESERVATION := Reservation(None, None)

  predicate Matches(m: Meta, r: Reservation) {
    r.episode == Some(m.id) && r.entryAt == Some(m.entryAt) && m.zoned
  }

  // ---------------------------------------------------------------- studies

  datatype Kind = EntryVeto | ManipulationVeto | SizingMultiplier | EarlierReview

  datatype Condition = Condition(feature: string, atMost: bool, threshold: real)

  /** The frozen design of a study. */
  datatype Design = Design(
    createdAt: int,
    cutoffAt: int,
    kind: Kind,
    context: Context,
    conditions: seq<Condition>,
    feature: Option<string>,
    atMost: Option<bool>,
    threshold: Option<real>,
    hold: Option<int>,
    baselineHold: int,
    multiplier: Option<real>,
    minimumSamples: nat,
    minimumAvailability: real,
    learnable: bool)

  datatype Verdict = Testing | Promising | Inconclusive | NotSupported

  datatype Contribution = ResearchOnly | ReadyToContribute | WaitingForChampion | HandedOff | Stale

  datatype Enrolment = Enrolment(
    episode: int, identity: int, entryAt: int, season: int, resolved: bool, value: Option<real>)

  datatype Counts = Counts(
    scanned: nat, contextExcluded: nat, identityExcluded: nat, conditionExcluded: nat,
    missing: nat, changed: nat, enrolled: nat, pending: nat)

  datatype Evidence = Evidence(
    observed: nat,
    usable: nat,
    availability: real,
    seasonCount: nat,
    bounds: Option<(real, real, real)>,
    ids: seq<int>,
    values: seq<real>,
    seasons: map<int, nat>)

  /** Where the scan stands: never scanned, at the cutoff sentinel, or at a row. */
  datatype Cursor = Unscanned | AtCutoff | AtRow(row: Position)

  datatype Hypothesis = Hypothesis(
    design: Design,
    state: Verdict,
    cursor: Cursor,
    enrolled: seq<Enrolment>,
    counts: Counts,
    evidence: Evidence,
    resolvedAt: Option<int>,
    reason: string,
    contribution: Contribution,
    artifact: Option<string>,
    updatedAt: int,
    evaluatedAt: Option<int>)

  /** A row lies after a cursor; the sentinel sorts after every row made at the cutoff. */
  predicate Past(p: Position, cutoff: int, cursor: Cursor) {
    if cursor.AtRow? then Below(cursor.row, p) else p.at > cutoff
  }

  /** A row lies beyond what the study has scanned. */
  predicate Beyond(p: Position, h: Hypothesis) {
    Past(p, h.design.cutoffAt, h.cursor)
  }

  predicate Contract(d: Design, m: Meta) {
    && PolicyEntry(m)
    && m.createdAt > d.cutoffAt
    && m.entryAt > d.cutoffAt
    && m.createdAt == m.entryAt
    && m.context == d.context
  }

  // ---------------------------------------------------------------- observation value

  predicate ConditionMatches(m: Meta, feature: string, atMost: bool, threshold: real) {
    && feature in m.features
    && m.features[feature].Finite?
    && (if atMost then m.features[feature].value <= threshold else m.features[feature].value >= threshold)
  }

  predicate ConditionsMatch(m: Meta, conditions: seq<Condition>) {
    conditions != [] &&
    forall c :: c in conditions ==> ConditionMatches(m, c.feature, c.atMost, c.threshold)
  }

  datatype Observation = Observation(resolved: bool, relevant: bool, value: Option<real>)

  const IRRELEVANT := Observation(false, false, None)

  function VetoValue(d: Design, m: Meta, o: Outcome): Observation {
    if d.conditions == [] && (d.feature.None? || d.atMost.None? || d.threshold.None?) then IRRELEVANT
    else
      var matches := if d.conditions != [] then ConditionsMatch(m, d.conditions)
                     else ConditionMatches(m, d.feature.value, d.atMost.value, d.threshold.value);
      if !matches then IRRELEVANT
      else if PRIMARY_HORIZON !in o.checkpoints then Observation(false, true, None)
      else
        var net := o.checkpoints[PRIMARY_HORIZON].netReturn;
        Observation(true, true, if net.Some? then Some(-net.value) else None)
  }

  function SizeValue(o: Outcome, multiplier: real): Option<real> {
    if multiplier !in o.trials || 1.0 !in o.trials then None
    else
      var trial, base := o.trials[multiplier], o.trials[1.0];
      if !trial.eligible || trial.entryCost.None? || base.entryCost.None? || base.entryCost.value <= 0 then None
      else if PRIMARY_HORIZON !in trial.checkpoints then None
      else if trial.checkpoints[PRIMARY_HORIZON].exitValue.None? then None
      else
        Some((trial.checkpoints[PRIMARY_HORIZON].exitValue.value - trial.entryCost.value) as real
             / base.entryCost.value as real)
  }

  function Difference(a: Option<real>, b: Option<real>): Option<real> {
    if a.Some? && b.Some? then Some(a.value - b.value) else None
  }

  function SizingValue(d: Design, o: Outcome): Observation {
    if d.multiplier.None? then IRRELEVANT
    else
      var k := d.multiplier.value;
      if k !in o.trials || 1.0 !in o.trials then Observation(true, true, None)
      else if PRIMARY_HORIZON !in o.trials[k].checkpoints
           || PRIMARY_HORIZON !in o.trials[1.0].checkpoints then Observation(false, true, None)
      else Observation(true, true, Difference(SizeValue(o, k), SizeValue(o, 1.0)))
  }

  function ExitValue(d: Design, o: Outcome): Observation {
    if d.hold.None? then IRRELEVANT
    else if d.hold.value !in o.checkpoints || d.baselineHold !in o.checkpoints then
      Observation(false, true, None)
    else
      Observation(true, true,
                  Difference(o.checkpoints[d.hold.value].netReturn, o.checkpoints[d.baselineHold].netReturn))
  }

  function ObservationValue(d: Design, e: Episode): Observation {
    if !e.meta.enters then IRRELEVANT
    else match d.kind
      case EntryVeto => VetoValue(d, e.meta, e.outcome)
      case ManipulationVeto => VetoValue(d, e.meta, e.outcome)
      case SizingMultiplier => SizingValue(d, e.outcome)
      case EarlierReview => ExitValue(d, e.outcome)
  }

  // ---------------------------------------------------------------- chronological order

  predicate Chronological(es: seq<Episode>) {
    forall i, j :: 0 <= i < j < |es| ==> Below(PositionOf(es[i].meta), PositionOf(es[j].meta))
  }

  predicate OneRowPerId(es: seq<Episode>) {
    forall i, j :: 0 <= i < j < |es| ==> es[i].meta.id != es[j].meta.id
  }

  function InsertByTime(es: seq<Episode>, e: Episode): seq<Episode> {
    if es == [] || Below(PositionOf(e.meta), PositionOf(es[0].meta)) then [e] + es
    else [es[0]] + InsertByTime(es[1..], e)
  }

  /** The episodes of one page in (created_at, episode_id) order. */
  function Ordered(es: seq<Episode>): seq<Episode> {
    if es == [] then [] else InsertByTime(Ordered(es[1..]), es[0])
  }

  lemma {:induction false} InsertMembers(es: seq<Episode>, e: Episode)
    ensures multiset(InsertByTime(es, e)) == multiset(es) + multiset{e}
    ensures forall x :: x in InsertByTime(es, e) <==> x in es || x == e
  {
    if es != [] && !Below(PositionOf(e.meta), PositionOf(es[0].meta)) {
      InsertMembers(es[1..], e);
      assert es == [es[0]] + es[1..];
    }
  }

  /** A later first row in front of rows that are later still. */
  lemma ChronologicalCons(e: Episode, rest: seq<Episode>)
    requires Chronological(rest) && forall x :: x in rest ==> Below(PositionOf(e.meta), PositionOf(x.meta))
    ensures Chronological([e] + rest)
  {
    var es := [e] + rest;
    forall i, j | 0 <= i < j < |es| ensures Below(PositionOf(es[i].meta), PositionOf(es[j].meta)) {
      assert es[j] == rest[j - 1] && es[j] in rest;
      if i > 0 {
        assert es[i] == rest[i - 1];
      }
    }
  }

  lemma {:induction false} InsertKeeps(es: seq<Episode>, e: Episode)
    requires Chronological(es) && forall x :: x in es ==> x.meta.id != e.meta.id
    ensures Chronological(InsertByTime(es, e))
    ensures multiset(InsertByTime(es, e)) == multiset(es) + multiset{e}
  {
    InsertMembers(es, e);
    if es == [] {
    } else {
      if Below(PositionOf(e.meta), PositionOf(es[0].meta)) {
        ChronologicalCons(e, es);
      } else {
        InsertKeeps(es[1..], e);
        InsertMembers(es[1..], e);
        ChronologicalCons(es[0], InsertByTime(es[1..], e));
      }
    }
  }

  lemma {:induction false} OrderedKeeps(es: seq<Episode>)
    requires OneRowPerId(es)
    ensures Chronological(Ordered(es)) && multiset(Ordered(es)) == multiset(es)
    ensures forall e :: e in Ordered(es) <==> e in es
  {
    if es == [] {
    } else {
      OrderedKeeps(es[1..]);
      assert es == [es[0]] + es[1..];
      InsertKeeps(Ordered(es[1..]), es[0]);
      assert forall e :: e in Ordered(es) <==> e in multiset(Ordered(es));
    }
  }

  // ---------------------------------------------------------------- enrolment

  datatype Scan = Scan(enrolled: seq<Enrolment>, counts: Counts)

  function Known(enrolled: seq<Enrolment>): set<int> {
    set item | item in enrolled :: item.identity
  }

  function Reserved(identities: map<int, Reservation>, key: int): Reservation {
    if key in identities then identities[key] else NO_RESERVATION
  }

  predicate Scans(h: Hypothesis, acc: Scan, e: Episode) {
    Beyond(PositionOf(e.meta), h) && |acc.enrolled| < MAXIMUM_OBSERVED
  }

  /** One episode of the scan, with the counter it moves. */
  function EnrolOne(h: Hypothesis, identities: map<int, Reservation>, acc: Scan, e: Episode): Scan {
    if !Scans(h, acc, e) then acc
    else
      var c := acc.counts.(scanned := acc.counts.scanned + 1);
      if !Contract(h.design, e.meta) then
        acc.(counts := c.(contextExcluded := c.contextExcluded + 1))
      else if !Matches(e.meta, Reserved(identities, e.meta.key)) || e.meta.key in Known(acc.enrolled) then
        acc.(counts := c.(identityExcluded := c.identityExcluded + 1))
      else if !ObservationValue(h.design, e).relevant then
        acc.(counts := c.(conditionExcluded := c.conditionExcluded + 1))
      else
        Scan(acc.enrolled + [Enrolment(e.meta.id, e.meta.key, e.meta.entryAt, e.meta.season.value, false, None)], c)
  }

  function EnrolAll(h: Hypothesis, identities: map<int, Reservation>, acc: Scan, es: seq<Episode>): Scan {
    if es == [] then acc
    else EnrolOne(h, identities, EnrolAll(h, identities, acc, es[..|es| - 1]), es[|es| - 1])
  }

  // ---------------------------------------------------------------- resolution

  function ById(es: seq<Episode>, id: int): Option<Episode> {
    if es == [] then None
    else if es[|es| - 1].meta.id == id then Some(es[|es| - 1])
    else ById(es[..|es| - 1], id)
  }

  function Horizons(d: Design): set<int> {
    if d.kind.EarlierReview? then
      {d.baselineHold} + (if d.hold.Some? then {d.hold.value} else {})
    else {PRIMARY_HORIZON}
  }

  function HorizonSeconds(d: Design): int {
    if d.kind.EarlierReview? then
      Max(if d.hold.Some? then d.hold.value else PRIMARY_HORIZON, d.baselineHold)
    else PRIMARY_HORIZON
  }

  predicate FutureCheckpoint(checkpoints: map<int, Checkpoint>, horizons: set<int>, now: int) {
    exists k :: k in horizons && k in checkpoints &&
                (!checkpoints[k].zoned || checkpoints[k].observedAt > now)
  }

  /** Whether a checkpoint the study would read claims to come from the future. */
  predicate Future(d: Design, o: Outcome, now: int) {
    if d.kind.SizingMultiplier? then
      (1.0 in o.trials && FutureCheckpoint(o.trials[1.0].checkpoints, Horizons(d), now)) ||
      (d.multiplier.Some? && d.multiplier.value in o.trials
       && FutureCheckpoint(o.trials[d.multiplier.value].checkpoints, Horizons(d), now))
    else FutureCheckpoint(o.checkpoints, Horizons(d), now)
  }

  /** The enrolled episode is still the one enrolled, under the same reservation. */
  predicate Unchanged(d: Design, identities: map<int, Reservation>, item: Enrolment, m: Meta) {
    && Contract(d, m)
    && m.key == item.identity
    && Matches(m, Reservation(Some(item.entryAt), Some(item.episode)))
    && Matches(m, Reserved(identities, item.identity))
  }

  datatype Fate = Kept | Missing | Changed

  function FateOf(
    d: Design, identities: map<int, Reservation>, es: seq<Episode>, item: Enrolment): Fate
  {
    if item.resolved then Kept
    else
      var found := ById(es, item.episode);
      if found.None? then Missing
      else if !Unchanged(d, identities, item, found.value.meta) then Changed
      else Kept
  }

  function ResolveOne(
    d: Design, identities: map<int, Reservation>, es: seq<Episode>, now: int, item: Enrolment): Enrolment
  {
    if item.resolved then item
    else if FateOf(d, identities, es, item) != Kept then item.(resolved := true)
    else
      var e := ById(es, item.episode).value;
      var seen := ObservationValue(d, e);
      var future := Future(d, e.outcome, now);
      var resolved := seen.resolved && !future;
      if resolved || now > item.entryAt + (HorizonSeconds(d) + CHECKPOINT_GRACE) * MICROS then
        item.(resolved := true, value := if resolved && seen.relevant then seen.value else None)
      else item
  }

  function ResolveAll(
    d: Design, identities: map<int, Reservation>, es: seq<Episode>, now: int, items: seq<Enrolment>
  ): (out: seq<Enrolment>)
    ensures |out| == |items|
    ensures forall i :: 0 <= i < |items| ==> out[i] == ResolveOne(d, identities, es, now, items[i])
  {
    seq(|items|, i requires 0 <= i < |items| => ResolveOne(d, identities, es, now, items[i]))
  }

  function CountFate(
    d: Design, identities: map<int, Reservation>, es: seq<Episode>, items: seq<Enrolment>, fate: Fate): nat
  {
    if items == [] then 0
    else CountFate(d, identities, es, items[..|items| - 1], fate)
         + (if FateOf(d, identities, es, items[|items| - 1]) == fate then 1 else 0)
  }

  function CountPending(items: seq<Enrolment>): nat {
    if items == [] then 0
    else CountPending(items[..|items| - 1]) + (if items[|items| - 1].resolved then 0 else 1)
  }

  // ---------------------------------------------------------------- the resolved prefix

  function PrefixLength(items: seq<Enrolment>): (n: nat)
    ensures n <= |items|
    ensures forall i :: 0 <= i < n ==> items[i].resolved
    ensures n < |items| ==> !items[n].resolved
  {
    if items == [] || !items[0].resolved then 0 else 1 + PrefixLength(items[1..])
  }

  function Ids(items: seq<Enrolment>): (ids: seq<int>)
    ensures |ids| == |items|
    ensures forall i :: 0 <= i < |items| ==> ids[i] == items[i].episode
  {
    seq(|items|, i requires 0 <= i < |items| => items[i].episode)
  }

  function Values(items: seq<Enrolment>): seq<real> {
    if items == [] then []
    else
      var last := items[|items| - 1];
      Values(items[..|items| - 1]) + (if last.value.Some? then [last.value.value] else [])
  }

  function Seasons(items: seq<Enrolment>): map<int, nat> {
    if items == [] then map[]
    else
      var last, rest := items[|items| - 1], Seasons(items[..|items| - 1]);
      if last.value.None? then rest
      else rest[last.season := (if last.season in rest then rest[last.season] else 0) + 1]
  }

  // ---------------------------------------------------------------- verdict

  function Sum(values: seq<real>): real {
    if values == [] then 0.0 else Sum(values[..|values| - 1]) + values[|values| - 1]
  }

  /** Mean with its interval; the half-width for two or more values is a parameter. */
  function Bounds(margin: seq<real> -> real, values: seq<real>): Option<(real, real, real)> {
    if values == [] then None
    else
      var mean := Sum(values) / |values| as real;
      var half := if |values| < 2 then 1.0 else margin(values);
      Some((mean, mean - half, mean + half))
  }

  function MeaningfulSeasons(seasons: map<int, nat>): nat {
    |set s | s in seasons && seasons[s] >= SAMPLES_PER_SEASON|
  }

  function Availability(usable: nat, observed: nat): real {
    if observed == 0 then 0.0 else usable as real / observed as real
  }

  function Measure(margin: seq<real> -> real, ids: seq<int>, values: seq<real>, seasons: map<int, nat>): Evidence {
    Evidence(|ids|, |values|, Availability(|values|, |ids|),
             MeaningfulSeasons(seasons), Bounds(margin, values), ids, values, seasons)
  }

  function Judge(d: Design, e: Evidence, now: int): (Verdict, string) {
    if e.usable >= d.minimumSamples && e.availability >= d.minimumAvailability
       && e.seasonCount >= MINIMUM_SEASONS && e.bounds.Some? && e.bounds.value.1 > MINIMUM_UPLIFT then
      (Promising, "forward_proof_supported")
    else if e.usable >= REJECTION_SAMPLES && e.bounds.Some? && e.bounds.value.2 <= 0.0 then
      (NotSupported, "forward_evidence_not_supported")
    else if e.observed >= MAXIMUM_OBSERVED then
      (Inconclusive, "maximum_forward_evidence_reached")
    else if now - d.createdAt >= MAXIMUM_AGE then
      (Inconclusive, "forward_study_expired")
    else (Testing, "")
  }

  /** Re-measure a study; an unchanged measurement leaves the record untouched. */
  function Finish(
    margin: seq<real> -> real, h: Hypothesis, ids: seq<int>, values: seq<real>, seasons: map<int, nat>, now: int
  ): Hypothesis
  {
    var evidence := Measure(margin, ids, values, seasons);
    var (state, reason) := Judge(h.design, evidence, now);
    var contribution :=
      if state.Promising? && h.design.learnable && h.contribution.ResearchOnly? then ReadyToContribute
      else h.contribution;
    var resolvedAt := if state.Testing? then None else Some(now);
    var updated := h.(state := state, evidence := evidence, resolvedAt := resolvedAt, reason := reason,
                      contribution := contribution);
    if updated == h then h else updated.(updatedAt := now, evaluatedAt := Some(now))
  }

  // ---------------------------------------------------------------- one pass

  function GapVerdict(h: Hypothesis, now: int): Hypothesis {
    h.(state := Inconclusive, resolvedAt := Some(now), updatedAt := now, reason := "policy_history_gap")
  }

  function Enrolled(h: Hypothesis, es: seq<Episode>, identities: map<int, Reservation>): Scan {
    EnrolAll(h, identities, Scan(h.enrolled, h.counts), Ordered(es))
  }

  /** Enrolments after a pass that does not stop at a retention gap. */
  function Resolved(h: Hypothesis, es: seq<Episode>, identities: map<int, Reservation>, now: int): seq<Enrolment> {
    ResolveAll(h.design, identities, es, now, Enrolled(h, es, identities).enrolled)
  }

  function PassCounts(h: Hypothesis, es: seq<Episode>, identities: map<int, Reservation>, now: int): Counts {
    var scan := Enrolled(h, es, identities);
    var items := Resolved(h, es, identities, now);
    scan.counts.(
      missing := scan.counts.missing + CountFate(h.design, identities, es, scan.enrolled, Missing),
      changed := scan.counts.changed + CountFate(h.design, identities, es, scan.enrolled, Changed),
      enrolled := |items|,
      pending := CountPending(items))
  }

  function Collected(
    updated: Hypothesis, items: seq<Enrolment>, cursor: Cursor, counts: Counts, now: int): Hypothesis
  {
    if updated.enrolled == items && updated.cursor == cursor && updated.counts == counts then updated
    else updated.(enrolled := items, cursor := cursor, counts := counts, updatedAt := now)
  }

  function Evaluate(
    margin: seq<real> -> real,
    h: Hypothesis,
    es: seq<Episode>,
    identities: map<int, Reservation>,
    cursor: Cursor,
    gap: bool,
    now: int
  ): Hypothesis
  {
    if !h.state.Testing? then h
    else if gap && |h.enrolled| < MAXIMUM_OBSERVED then GapVerdict(h, now)
    else
      var items := Resolved(h, es, identities, now);
      var prefix := items[..PrefixLength(items)];
      var updated := Finish(margin, h, Ids(prefix), Values(prefix), Seasons(prefix), now);
      Collected(updated, items, cursor, PassCounts(h, es, identities, now), now)
  }
}
