/** The bounded battle replay: checkpoints of one contest, thinned but never altered. */
module ReplayModel {
  import opened Common

  const MAX_POINTS: nat := 32
  const MAX_NAME: nat := 180
  const VERSION: string := "battle-checkpoints-v1"

  datatype Skill = Entry | Manipulation | Sizing | Exit

  datatype Reading = Reading(
    observed: int, usable: int, coverage: real, mean: Option<real>, lower: Option<real>, upper: Option<real>)

  datatype Point = Point(reading: Reading, at: int, sequence: int)

  datatype Replay = Replay(
    version: string,
    cohort: string,
    skill: Skill,
    candidate: string,
    champion: string,
    minimumSamples: int,
    minimumCoverage: real,
    scoring: Option<int>,
    partial: bool,
    sampled: bool,
    points: seq<Point>)

  /** A count in the tournament statistics: an absent one reads as zero. */
  datatype Tally = Absent | Whole(n: int) | NotWhole

  /** A measure in the statistics; `Malformed` is anything but a finite number or nothing. */
  datatype Measure = Nothing | Number(x: real) | Malformed

  datatype Stats = Stats(
    candidate: Option<string>, champion: Option<string>, scoring: Option<int>,
    observed: Tally, usable: Tally, mean: Measure, lower: Measure, upper: Measure)

  /** The part of a skill's state that the recorder reads and writes; no version is "". */
  datatype State = State(
    cohort: string, skill: Skill, testing: string, champion: string, stats: Stats,
    replay: Option<Replay>, dirty: bool, pending: map<string, Replay>)

  // ---------------------------------------------------------------- the validator

  predicate NameOk(name: string) {
    1 <= |name| <= MAX_NAME
  }

  predicate HeaderOk(r: Replay) {
    && r.version == VERSION && NameOk(r.cohort) && NameOk(r.candidate) && NameOk(r.champion)
    && r.candidate != r.champion && 1 <= r.minimumSamples <= 10000 && 0.0 < r.minimumCoverage <= 1.0
  }

  function Share(usable: int, observed: int): real {
    if observed == 0 then 0.0 else usable as real / observed as real
  }

  function Distance(x: real, y: real): real {
    if x < y then y - x else x - y
  }

  predicate BoundsOk(lower: Option<real>, mean: Option<real>, upper: Option<real>) {
    lower.Some? && mean.Some? && upper.Some? ==> lower.value <= mean.value <= upper.value
  }

  predicate ReadingOk(g: Reading) {
    && 0 <= g.usable <= g.observed
    && Distance(g.coverage, Share(g.usable, g.observed)) <= 0.000000001
    && BoundsOk(g.lower, g.mean, g.upper)
  }

  predicate PointsOk(points: seq<Point>) {
    && (forall i :: 0 <= i < |points| ==> ReadingOk(points[i].reading) && points[i].sequence >= 0)
    && (forall i, j :: 0 <= i < j < |points| ==> points[i].at < points[j].at && points[i].sequence < points[j].sequence)
  }

  predicate ValidReplay(r: Replay) {
    HeaderOk(r) && 1 <= |r.points| <= MAX_POINTS && PointsOk(r.points)
  }

  // ---------------------------------------------------------------- reading the statistics

  function TallyOf(t: Tally): Option<int> {
    match t
    case Absent => Some(0)
    case Whole(n) => Some(n)
    case NotWhole => None
  }

  function MeasureOf(m: Measure): Option<real> {
    if m.Number? then Some(m.x) else None
  }

  function ReadingOf(stats: Stats): (g: Option<Reading>)
    ensures g.Some? ==> ReadingOk(g.value)
  {
    var observed, usable := TallyOf(stats.observed), TallyOf(stats.usable);
    if observed.None? || usable.None? || !(0 <= usable.value <= observed.value) then None
    else if stats.mean.Malformed? || stats.lower.Malformed? || stats.upper.Malformed? then None
    else
      var mean, lower, upper := MeasureOf(stats.mean), MeasureOf(stats.lower), MeasureOf(stats.upper);
      if !BoundsOk(lower, mean, upper) then None
      else Some(Reading(observed.value, usable.value, Share(usable.value, observed.value), mean, lower, upper))
  }

  // ---------------------------------------------------------------- thinning

  /** How much an inner point would be missed. */
  datatype Weight = Finite(x: real) | Infinite

  predicate Lighter(a: Weight, b: Weight) {
    a.Finite? && (b.Infinite? || a.x < b.x)
  }

  function WeightOf(points: seq<Point>, i: nat): Weight
    requires 1 <= i < |points| - 1
  {
    var before, here, after := points[i - 1].reading.mean, points[i].reading.mean, points[i + 1].reading.mean;
    if before.None? || here.None? || after.None? then
      if here.None? && before.Some? then Infinite else Finite(0.0)
    else Finite(Distance(here.value, (before.value + after.value) / 2.0))
  }

  /** The first inner point of least weight. */
  predicate IsVictim(points: seq<Point>, v: nat) {
    && 1 <= v < |points| - 1
    && (forall j :: 1 <= j < |points| - 1 ==> !Lighter(WeightOf(points, j), WeightOf(points, v)))
    && (forall j :: 1 <= j < v ==> Lighter(WeightOf(points, v), WeightOf(points, j)))
  }

  function Without(points: seq<Point>, v: nat): seq<Point>
    requires v < |points|
  {
    points[..v] + points[v + 1..]
  }

  function LeastTo(points: seq<Point>, n: nat): (v: nat)
    requires 1 <= n < |points| - 1
    ensures 1 <= v <= n
    ensures forall j :: 1 <= j <= n ==> !Lighter(WeightOf(points, j), WeightOf(points, v))
    ensures forall j :: 1 <= j < v ==> Lighter(WeightOf(points, v), WeightOf(points, j))
  {
    if n == 1 then 1
    else
      var v := LeastTo(points, n - 1);
      if Lighter(WeightOf(points, n), WeightOf(points, v)) then n else v
  }

  /** The inner point that thinning drops. */
  function Victim(points: seq<Point>): (v: nat)
    requires |points| > 2
    ensures IsVictim(points, v)
  {
    LeastTo(points, |points| - 2)
  }

  // ---------------------------------------------------------------- recording

  function Start(s: State, minimum: int, coverage: real): Replay {
    Replay(VERSION, s.cohort, s.skill, s.testing, s.champion, minimum, coverage, s.stats.scoring, false, false, [])
  }

  /** Statistics that belong to the two versions now in contest. */
  predicate Applicable(s: State) {
    && s.testing != "" && s.champion != ""
    && s.stats.candidate == Some(s.testing) && s.stats.champion == Some(s.champion)
  }

  predicate Rescored(s: State) {
    s.replay.Some? && s.replay.value.scoring != s.stats.scoring
  }

  predicate Replaced(s: State) {
    s.replay.None? || s.replay.value.candidate != s.testing || s.replay.value.champion != s.champion
  }

  /** The recording to extend; points measured for other contestants or rules are never joined. */
  function Current(s: State, minimum: int, coverage: real): Replay {
    if Rescored(s) then
      Start(s, minimum, coverage).(partial := s.replay.value.points != [] || s.replay.value.partial)
    else if Replaced(s) then Start(s, minimum, coverage).(partial := true)
    else s.replay.value
  }

  predicate Restarts(s: State) {
    Applicable(s) && (Rescored(s) || Replaced(s))
  }

  datatype Outcome = Ignored | Late | Appended(point: Point)

  /** What one call does with the current statistics. */
  function OutcomeOf(stats: Stats, points: seq<Point>, now: int): Outcome {
    var g := ReadingOf(stats);
    if g.None? then Ignored
    else if points != [] && points[|points| - 1].reading == g.value then Ignored
    else if points != [] && now <= points[|points| - 1].at then Late
    else Appended(Point(g.value, now, if points == [] then 0 else points[|points| - 1].sequence + 1))
  }

  function Extend(r: Replay, p: Point): Replay {
    var points := r.points + [p];
    if |points| <= MAX_POINTS then r.(points := points)
    else r.(points := Without(points, Victim(points)), sampled := true)
  }

  /** A late call leaves no point but marks the recording. */
  function Applied(r: Replay, o: Outcome): Replay {
    match o
    case Ignored => r
    case Late => r.(partial := true)
    case Appended(p) => Extend(r, p)
  }

  function Record(s: State, minimum: int, coverage: real, now: int): State {
    if !Applicable(s) then s
    else
      var r := Current(s, minimum, coverage);
      var o := OutcomeOf(s.stats, r.points, now);
      s.(replay := Some(Applied(r, o)), dirty := s.dirty || Restarts(s) || !o.Ignored?)
  }

  function Freeze(s: State, event: string): State {
    if s.replay.Some? && s.replay.value.points != [] then s.(pending := s.pending[event := s.replay.value]) else s
  }
}
